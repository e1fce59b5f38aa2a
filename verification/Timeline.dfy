/** The timeline, newest first, and the cursors that page through it. */
module Timeline {
  import opened Text
  import opened Timestamps
  import opened Ranking
  import opened KnowledgeGraph
  import opened GraphRuns

  datatype Filter = Filter(
    entityName: Option<string>, since: Option<string>, until: Option<string>,
    currentOnly: bool, audiences: Option<seq<string>>, includeSensitive: bool)

  /** `(COALESCE(valid_from, ''), COALESCE(recorded_at, ''), statement_id)` */
  datatype Position = Position(validFrom: string, recordedAt: string, id: string)

  function PositionOf(g: Graph, id: string): Position {
    if id in g.statements then Position(OrEmpty(g.statements[id].validFrom), g.statements[id].recordedAt, id)
    else Position("", "", id)
  }

  /** SQL's row-value comparison. */
  predicate Precedes(a: Position, b: Position) {
    if a.validFrom != b.validFrom then Less(a.validFrom, b.validFrom)
    else if a.recordedAt != b.recordedAt then Less(a.recordedAt, b.recordedAt)
    else Less(a.id, b.id)
  }

  lemma PrecedesIsStrictTotal(a: Position, b: Position, c: Position)
    ensures Precedes(a, b) || a == b || Precedes(b, a)
    ensures !Precedes(a, a) && !(Precedes(a, b) && Precedes(b, a))
    ensures Precedes(a, b) && Precedes(b, c) ==> Precedes(a, c)
  {
    FieldOrder(a.validFrom, b.validFrom, c.validFrom);
    FieldOrder(a.recordedAt, b.recordedAt, c.recordedAt);
    FieldOrder(a.id, b.id, c.id);
  }

  lemma FieldOrder(a: string, b: string, c: string)
    ensures Less(a, b) || a == b || Less(b, a)
    ensures !Less(a, a) && !(Less(a, b) && Less(b, a))
    ensures Less(a, b) && Less(b, c) ==> Less(a, c) && a != c
  {
    LessTotal(a, b);
    LessIrreflexive(a);
    if Less(a, b) {
      LessAsymmetric(a, b);
      if Less(b, c) { LessTransitive(a, b, c); }
    }
  }

  /** Newest first; no two rows tie, because a position ends in the row's id. */
  function NewestFirst(g: Graph): (string, string) -> bool {
    (i: string, j: string) => !Precedes(PositionOf(g, i), PositionOf(g, j))
  }

  lemma NewestFirstIsTotal(g: Graph)
    ensures TotalPreorder(NewestFirst(g)) && Antisymmetric(NewestFirst(g))
  {
    var ge := NewestFirst(g);
    forall i, j ensures ge(i, j) || ge(j, i) ensures ge(i, j) && ge(j, i) ==> i == j {
      PrecedesIsStrictTotal(PositionOf(g, i), PositionOf(g, j), PositionOf(g, i));
    }
    forall i, j, k | ge(i, j) && ge(j, k) ensures ge(i, k) {
      var a, b, c := PositionOf(g, i), PositionOf(g, j), PositionOf(g, k);
      PrecedesIsStrictTotal(a, b, c);
      PrecedesIsStrictTotal(b, c, a);
      PrecedesIsStrictTotal(a, c, b);
    }
  }

  // ---- one query -----------------------------------------------------------

  predicate Selected(env: Env, f: Filter, row: Statement) {
    && (Truthy(f.entityName) ==> row.subject == EntityId(env, f.entityName.value) || row.object_ == EntityId(env, f.entityName.value))
    && (f.currentOnly ==> row.IsOpen())
    && (Canonical(env.parse, f.since).Some? && row.validFrom.Some? ==> AtMost(Canonical(env.parse, f.since).value, row.validFrom.value))
    && (Canonical(env.parse, f.until).Some? && row.validFrom.Some? ==> AtMost(row.validFrom.value, Canonical(env.parse, f.until).value))
    && (f.audiences.Some? ==> row.audience in f.audiences.value)
    && (f.includeSensitive || !row.sensitive)
  }

  /** Every row the filter asks for that both joins keep. */
  function Matching(env: Env, g: Graph, f: Filter): set<string> {
    set id | id in g.statements && Selected(env, f, g.statements[id]) && Joined(g, g.statements[id])
  }

  /** The rows strictly below a cursor. */
  function Below(g: Graph, pool: set<string>, before: Option<Position>): set<string> {
    set id | id in pool && (before.Some? ==> Precedes(PositionOf(g, id), before.value))
  }

  /** The newest `n` rows of the pool strictly below the cursor. */
  ghost predicate NewestBelow(g: Graph, pool: set<string>, before: Option<Position>, n: nat, rows: seq<string>) {
    IsTop(NewestFirst(g), Below(g, pool, before), n, rows)
  }

  method Timeline(env: Env, g: Graph, f: Filter, limit: int, before: Option<Position>) returns (rows: seq<string>)
    ensures NewestBelow(g, Matching(env, g, f), before, if limit < 1 then 1 else limit, rows)
  {
    if f.audiences == Some([]) {
      assert Matching(env, g, f) == {};
      return [];
    }
    NewestFirstIsTotal(g);
    rows := SelectTop(NewestFirst(g), Below(g, Matching(env, g, f), before), if limit < 1 then 1 else limit);
  }

  /** On a graph built by writes the joins drop nothing. */
  lemma JoinsDropNothing(env: Env, g: Graph, f: Filter)
    requires EntitiesExact(g)
    ensures Matching(env, g, f) == set id | id in g.statements && Selected(env, f, g.statements[id])
  {
    forall id | id in g.statements ensures Joined(g, g.statements[id]) {
      assert g.statements[id].subject in Referenced(g.statements) && g.statements[id].object_ in Referenced(g.statements);
    }
  }

  // ---- paging --------------------------------------------------------------

  /** What a page's last row leaves below it is exactly what has not been shown. */
  lemma BelowLast(g: Graph, pool: set<string>, shown: seq<string>)
    requires shown != [] && IsTop(NewestFirst(g), pool, |shown|, shown)
    ensures Below(g, pool, Some(PositionOf(g, shown[|shown| - 1]))) == pool - ToSet(shown)
  {
    var last := shown[|shown| - 1];
    NewestFirstIsTotal(g);
    forall id | id in pool
      ensures Precedes(PositionOf(g, id), PositionOf(g, last)) <==> id !in shown
    {
      PrecedesIsStrictTotal(PositionOf(g, id), PositionOf(g, last), PositionOf(g, id));
      if id in shown {
        var i :| 0 <= i < |shown| && shown[i] == id;
        assert NewestFirst(g)(id, last);
      } else {
        assert NewestFirst(g)(last, id);
      }
    }
  }

  /** A viewer that shows `limit` rows, asks for one more to see whether there is a next page, and
      follows each page's cursor until there is none. On an unchanged graph it sees every matching
      row exactly once, newest first, for any page size, and it stops. */
  method FollowCursors(env: Env, g: Graph, f: Filter, limit: nat) returns (shown: seq<string>)
    requires limit >= 1
    ensures NoDuplicates(shown) && ToSet(shown) == Matching(env, g, f)
    ensures forall i, j :: 0 <= i < j < |shown| ==> Precedes(PositionOf(g, shown[j]), PositionOf(g, shown[i]))
    ensures forall id :: id in shown <==> id in g.statements && OnTimeline(env, g, f, g.statements[id])
    ensures forall i, j :: 0 <= i < j < |shown| ==> ShownBefore(g, shown[i], shown[j])
  {
    ghost var pool := Matching(env, g, f);
    var before := None;
    var more := true;
    shown := [];
    NothingShown(g, pool);
    while more
      invariant Shown(g, pool, shown) && |shown| <= |pool|
      invariant more ==> Below(g, pool, before) == pool - ToSet(shown)
      invariant !more ==> ToSet(shown) == pool
      decreases more, |pool| - |shown|
    {
      shown, before, more := ShowNext(env, g, f, limit, shown, before);
    }
    InOrder(g, pool, shown);
    SelectedInColumns(env, g, f);
    assert forall id :: id in shown <==> id in ToSet(shown);
    InColumns(g, shown);
  }

  /** No bound given, or the text is on the right side of it or at it. */
  predicate NotBefore(bound: Option<string>, text: string) {
    bound.None? || bound == Some(text) || Less(bound.value, text)
  }

  predicate NotAfter(bound: Option<string>, text: string) {
    bound.None? || bound == Some(text) || Less(text, bound.value)
  }

  /** The row belongs on the timeline asked for, in columns: an end of it is the entity, it is still
      open if only current ones are wanted, its start, if it has one, is within both bounds, the
      bounds included, and the caller may see it. */
  predicate OnTimeline(env: Env, g: Graph, f: Filter, row: Statement) {
    && (f.entityName.Some? && f.entityName.value != "" ==> EntityId(env, f.entityName.value) in [row.subject, row.object_])
    && (f.currentOnly ==> row.validTo == None)
    && (match row.validFrom
        case None => true
        case Some(start) => NotBefore(Canonical(env.parse, f.since), start) && NotAfter(Canonical(env.parse, f.until), start))
    && (match f.audiences case None => true case Some(allowed) => row.audience in allowed)
    && (row.sensitive ==> f.includeSensitive)
    && row.subject in g.entities && row.object_ in g.entities
  }

  /** The later start first, one without a start last; of one start the later recording; of one
      recording the greater id. */
  predicate ShownBefore(g: Graph, i: string, j: string) {
    && i in g.statements && j in g.statements &&
    var a, b := g.statements[i], g.statements[j];
    && (b.validFrom.Some? && b.validFrom.value != "" ==> a.validFrom.Some? && !Less(a.validFrom.value, b.validFrom.value))
    && (a.validFrom == b.validFrom ==> !Less(a.recordedAt, b.recordedAt))
    && (a.validFrom == b.validFrom && a.recordedAt == b.recordedAt ==> Less(j, i))
  }

  lemma InColumns(g: Graph, shown: seq<string>)
    requires forall i :: 0 <= i < |shown| ==> shown[i] in g.statements
    requires forall i, j :: 0 <= i < j < |shown| ==> Precedes(PositionOf(g, shown[j]), PositionOf(g, shown[i]))
    ensures forall i, j :: 0 <= i < j < |shown| ==> ShownBefore(g, shown[i], shown[j])
  {
    forall i, j | 0 <= i < j < |shown| ensures ShownBefore(g, shown[i], shown[j]) {
      var a, b := g.statements[shown[i]], g.statements[shown[j]];
      FieldOrder(OrEmpty(b.validFrom), OrEmpty(a.validFrom), OrEmpty(b.validFrom));
      FieldOrder(b.recordedAt, a.recordedAt, b.recordedAt);
    }
  }

  /** Which rows the filter lets through, in columns. */
  lemma SelectedInColumns(env: Env, g: Graph, f: Filter)
    ensures forall id :: id in Matching(env, g, f) <==> id in g.statements && OnTimeline(env, g, f, g.statements[id])
  {
    forall a: string, b: string ensures AtMost(a, b) <==> a == b || Less(a, b) {
      FieldOrder(a, b, a);
    }
  }

  /** One page: one row more than is shown tells whether another page follows, and the last row
      shown is its cursor. */
  method ShowNext(env: Env, g: Graph, f: Filter, limit: nat, shown: seq<string>, before: Option<Position>)
    returns (next: seq<string>, cursor: Option<Position>, more: bool)
    requires limit >= 1 && Shown(g, Matching(env, g, f), shown)
    requires Below(g, Matching(env, g, f), before) == Matching(env, g, f) - ToSet(shown)
    ensures Shown(g, Matching(env, g, f), next) && |next| <= |Matching(env, g, f)|
    ensures more ==> |shown| < |next| && Below(g, Matching(env, g, f), cursor) == Matching(env, g, f) - ToSet(next)
    ensures !more ==> ToSet(next) == Matching(env, g, f)
  {
    var rows := Timeline(env, g, f, limit + 1, before);
    ShowPage(g, Matching(env, g, f), shown, before, rows, limit);
    next := WithPage(shown, rows, limit);
    more := |rows| > limit;
    cursor := if more then Some(PositionOf(g, next[|next| - 1])) else None;
  }

  lemma NothingShown(g: Graph, pool: set<string>)
    ensures Shown(g, pool, []) && Below(g, pool, None) == pool - ToSet([])
  {
  }

  /** What has been shown once the first `limit` of these rows are. */
  function WithPage(shown: seq<string>, rows: seq<string>, limit: nat): seq<string> {
    shown + rows[..Min(limit, |rows|)]
  }

  /** The newest rows of the pool, as many as have been shown. */
  ghost predicate Shown(g: Graph, pool: set<string>, shown: seq<string>) {
    IsTop(NewestFirst(g), pool, |shown|, shown)
  }

  /** One page more: still the newest rows and nothing twice, and the cursor is exact. */
  lemma ShowPage(g: Graph, pool: set<string>, shown: seq<string>, before: Option<Position>, rows: seq<string>, limit: nat)
    requires limit >= 1 && Shown(g, pool, shown)
    requires NewestBelow(g, pool, before, limit + 1, rows) && Below(g, pool, before) == pool - ToSet(shown)
    ensures Shown(g, pool, WithPage(shown, rows, limit)) && |WithPage(shown, rows, limit)| <= |pool|
    ensures |rows| <= limit ==> ToSet(WithPage(shown, rows, limit)) == pool
    ensures |rows| > limit ==> |shown| < |WithPage(shown, rows, limit)|
    ensures |rows| > limit ==> var next := WithPage(shown, rows, limit);
      Below(g, pool, Some(PositionOf(g, next[|next| - 1]))) == pool - ToSet(next)
  {
    NewestFirstIsTotal(g);
    PageStep(NewestFirst(g), pool, shown, rows, limit);
    if |rows| <= limit {
      assert rows[..Min(limit, |rows|)] == rows;
    } else {
      BelowLast(g, pool, WithPage(shown, rows, limit));
    }
  }

  lemma InOrder(g: Graph, pool: set<string>, shown: seq<string>)
    requires Shown(g, pool, shown)
    ensures NoDuplicates(shown)
    ensures forall i, j :: 0 <= i < j < |shown| ==> Precedes(PositionOf(g, shown[j]), PositionOf(g, shown[i]))
  {
    forall i, j | 0 <= i < j < |shown| ensures Precedes(PositionOf(g, shown[j]), PositionOf(g, shown[i])) {
      PrecedesIsStrictTotal(PositionOf(g, shown[i]), PositionOf(g, shown[j]), PositionOf(g, shown[i]));
    }
  }
}
