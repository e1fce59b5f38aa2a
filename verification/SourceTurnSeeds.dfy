/** Which entities the source turns of some recalled memories were about. */
module SourceTurnSeeds {
  import opened Text
  import opened Ranking
  import opened KnowledgeGraph

  const LOOKUP_CHUNK: nat := 900

  /** The caller's scope. */
  datatype Scope = Scope(audiences: seq<string>, includeSensitive: bool)

  predicate FromTurns(row: Statement, turns: set<string>, scope: Scope) {
    row.turn.Some? && row.turn.value in turns && Visible(row, scope.audiences, scope.includeSensitive)
  }

  /** The joined rows one GROUP BY counts for a name: a statement with one of its ends. A statement
      whose ends are one entity is one row. */
  function Hits(g: Graph, turns: set<string>, scope: Scope, name: string): set<(string, string)> {
    set s, e | s in g.statements && e in g.entities && FromTurns(g.statements[s], turns, scope)
               && (e == g.statements[s].subject || e == g.statements[s].object_) && g.entities[e] == name :: (s, e)
  }

  /** What the SELECT returns for some turns. */
  function GroupBy(g: Graph, turns: set<string>, scope: Scope): map<string, nat> {
    map name | name in g.entities.Values && Hits(g, turns, scope, name) != {} :: |Hits(g, turns, scope, name)|
  }

  /** One group-by over all the turns at once, blank names left out. */
  function Counts(g: Graph, turns: set<string>, scope: Scope): map<string, nat> {
    GroupBy(g, turns, scope) - {""}
  }

  function CountOf(counts: map<string, nat>, name: string): nat {
    if name in counts then counts[name] else 0
  }

  /** `(-hits, name)` */
  function MostHitsFirst(counts: map<string, nat>): (string, string) -> bool {
    (a: string, b: string) =>
      CountOf(counts, a) > CountOf(counts, b) || (CountOf(counts, a) == CountOf(counts, b) && AtMost(a, b))
  }

  lemma MostHitsFirstIsTotal(counts: map<string, nat>)
    ensures TotalPreorder(MostHitsFirst(counts)) && Antisymmetric(MostHitsFirst(counts))
  {
    var ge := MostHitsFirst(counts);
    forall a, b ensures ge(a, b) || ge(b, a) ensures ge(a, b) && ge(b, a) ==> a == b {
      LessTotal(a, b);
      if Less(a, b) { LessAsymmetric(a, b); }
      LessIrreflexive(a);
    }
    forall a, b, c | ge(a, b) && ge(b, c) ensures ge(a, c) {
      LessTotal(a, b);
      LessTotal(b, c);
      if Less(a, b) && Less(b, c) {
        LessTransitive(a, b, c);
        LessAsymmetric(a, c);
      }
    }
  }

  /** Distinct turns count separately. */
  lemma HitsAdd(g: Graph, a: set<string>, b: set<string>, scope: Scope, name: string)
    requires a !! b
    ensures Hits(g, a + b, scope, name) == Hits(g, a, scope, name) + Hits(g, b, scope, name)
    ensures |Hits(g, a + b, scope, name)| == |Hits(g, a, scope, name)| + |Hits(g, b, scope, name)|
  {
    assert Hits(g, a, scope, name) !! Hits(g, b, scope, name);
  }

  /** The tally after some rows of a chunk's result have been added to it. */
  ghost predicate Tallied(base: map<string, nat>, page: map<string, nat>, todo: set<string>, counted: map<string, nat>) {
    forall name :: CountOf(counted, name) == CountOf(base, name) + (if name in todo || name == "" then 0 else CountOf(page, name))
      && (name in counted <==> name in base || (name in page && name !in todo && name != ""))
  }

  lemma CountFacts(g: Graph, turns: set<string>, scope: Scope, name: string)
    ensures CountOf(Counts(g, turns, scope), name) == if name == "" then 0 else |Hits(g, turns, scope, name)|
    ensures name in Counts(g, turns, scope) <==> CountOf(Counts(g, turns, scope), name) > 0
  {
    var hits := Hits(g, turns, scope, name);
    if hits != {} {
      var pair :| pair in hits;
      assert g.entities[pair.1] in g.entities.Values;
    }
  }

  lemma CountsAdd(g: Graph, a: set<string>, b: set<string>, scope: Scope, name: string)
    requires a !! b
    ensures CountOf(Counts(g, a + b, scope), name) == CountOf(Counts(g, a, scope), name) + CountOf(Counts(g, b, scope), name)
    ensures name in Counts(g, a + b, scope) <==> name in Counts(g, a, scope) || name in Counts(g, b, scope)
  {
    HitsAdd(g, a, b, scope, name);
    CountFacts(g, a, scope, name);
    CountFacts(g, b, scope, name);
    CountFacts(g, a + b, scope, name);
  }

  lemma SameTally(a: map<string, nat>, b: map<string, nat>)
    requires forall name :: CountOf(a, name) == CountOf(b, name) && (name in a <==> name in b)
    ensures a == b
  {
    assert forall name :: name in a ==> a[name] == CountOf(a, name) == CountOf(b, name) == b[name];
  }

  lemma TallyIsGroupBy(g: Graph, a: set<string>, b: set<string>, scope: Scope, counted: map<string, nat>)
    requires a !! b && Tallied(Counts(g, a, scope), GroupBy(g, b, scope), {}, counted)
    ensures counted == Counts(g, a + b, scope)
  {
    var whole := Counts(g, a + b, scope);
    forall name ensures CountOf(counted, name) == CountOf(whole, name) && (name in counted <==> name in whole) {
      CountsAdd(g, a, b, scope, name);
    }
    SameTally(counted, whole);
  }

  /** Adding one chunk's result to the tally. */
  method AddPage(base: map<string, nat>, page: map<string, nat>) returns (counted: map<string, nat>)
    ensures Tallied(base, page, {}, counted)
  {
    counted := base;
    var todo := page.Keys;
    while todo != {}
      invariant todo <= page.Keys
      invariant Tallied(base, page, todo, counted)
      decreases |todo|
    {
      var name :| name in todo;
      if name != "" {
        counted := counted[name := CountOf(counted, name) + page[name]];
      }
      todo := todo - {name};
    }
  }

  /** The loop over chunks of 900 ids ranks entities as one global group-by does: the first `cap`
      of (most hits, then name). */
  method EntitiesForTurns(g: Graph, turns: seq<string>, cap: int, scope: Scope) returns (names: seq<string>)
    requires NoDuplicates(turns)
    ensures turns == [] || cap <= 0 || scope.audiences == [] ==> names == []
    ensures turns != [] && cap > 0 && scope.audiences != [] ==>
      var counts := Counts(g, ToSet(turns), scope);
      IsTop(MostHitsFirst(counts), counts.Keys, cap, names)
    ensures turns != [] && cap > 0 && scope.audiences != [] ==> BestSeeds(g, ToSet(turns), scope, cap, names)
  {
    if turns == [] || cap <= 0 || scope.audiences == [] { return []; }
    var counted: map<string, nat> := map[];
    var start := 0;
    while start < |turns|
      invariant start <= |turns|
      invariant counted == Counts(g, ToSet(turns[..start]), scope)
    {
      var stop := Min(start + LOOKUP_CHUNK, |turns|);
      var page := GroupBy(g, ToSet(turns[start..stop]), scope);
      counted := AddPage(counted, page);
      DistinctSlices(turns, start, stop);
      TallyIsGroupBy(g, ToSet(turns[..start]), ToSet(turns[start..stop]), scope, counted);
      start := stop;
    }
    assert turns[..|turns|] == turns;
    MostHitsFirstIsTotal(counted);
    names := SelectTop(MostHitsFirst(counted), counted.Keys, cap);
    SeedsInNumbers(g, ToSet(turns), scope, cap, names);
  }

  /** More statements first, and of equally many the name that sorts first. */
  predicate Leads(g: Graph, turns: set<string>, scope: Scope, a: string, b: string) {
    || |Hits(g, turns, scope, a)| > |Hits(g, turns, scope, b)|
    || (|Hits(g, turns, scope, a)| == |Hits(g, turns, scope, b)| && (a == b || Less(a, b)))
  }

  /** At most `cap` names, none blank, each with a statement, in this order; a name that is left out
      is blank, has no statement, or comes after all of a full answer. */
  ghost predicate BestSeeds(g: Graph, turns: set<string>, scope: Scope, cap: nat, names: seq<string>) {
    && |names| <= cap && NoDuplicates(names)
    && (forall i :: 0 <= i < |names| ==> names[i] != "" && Hits(g, turns, scope, names[i]) != {})
    && (forall i, j :: 0 <= i < j < |names| ==> Leads(g, turns, scope, names[i], names[j]))
    && (forall name :: name !in names && name != "" && Hits(g, turns, scope, name) != {} ==>
          |names| == cap && forall i :: 0 <= i < |names| ==> Leads(g, turns, scope, names[i], name))
  }

  lemma SeedsInNumbers(g: Graph, turns: set<string>, scope: Scope, cap: nat, names: seq<string>)
    requires IsTop(MostHitsFirst(Counts(g, turns, scope)), Counts(g, turns, scope).Keys, cap, names)
    ensures BestSeeds(g, turns, scope, cap, names)
  {
    var counts := Counts(g, turns, scope);
    forall name
      ensures CountOf(counts, name) == if name == "" then 0 else |Hits(g, turns, scope, name)|
      ensures name in counts <==> name != "" && Hits(g, turns, scope, name) != {}
    {
      CountFacts(g, turns, scope, name);
    }
    forall i | 0 <= i < |names| ensures names[i] in counts { assert names[i] in ToSet(names); }
    forall a, b | a in counts && b in counts && MostHitsFirst(counts)(a, b) ensures Leads(g, turns, scope, a, b) {
      LessTotal(a, b);
    }
    forall name | name in counts && name !in names ensures |names| == cap {
      assert name !in ToSet(names);
      if |counts.Keys| <= cap { TopOfAll(MostHitsFirst(counts), counts.Keys, cap, names); }
    }
  }

  /** What a statement adds to the count of a name: nothing unless it comes from one of the turns and
      the caller may see it, and then one for each different end of it that has the name. */
  lemma OneMoreStatement(g: Graph, id: string, row: Statement, turns: set<string>, scope: Scope, name: string)
    requires id !in g.statements
    ensures var h := g.(statements := g.statements[id := row]);
      |Hits(h, turns, scope, name)| == |Hits(g, turns, scope, name)|
        + if row.turn.Some? && row.turn.value in turns && row.audience in scope.audiences && (row.sensitive ==> scope.includeSensitive)
          then |set e | e in {row.subject, row.object_} && e in g.entities && g.entities[e] == name| else 0
    ensures g.statements == map[] ==> Hits(g, turns, scope, name) == {}
  {
    var ends := set e | e in {row.subject, row.object_} && e in g.entities && g.entities[e] == name;
    HitsWithRow(g, id, row, turns, scope, name, ends);
    PairsOf(id, ends, set e | e in ends :: (id, e));
    assert Hits(g, turns, scope, name) !! set e | e in ends :: (id, e);
  }

  lemma HitsWithRow(g: Graph, id: string, row: Statement, turns: set<string>, scope: Scope, name: string, ends: set<string>)
    requires id !in g.statements
    requires ends == set e | e in {row.subject, row.object_} && e in g.entities && g.entities[e] == name
    ensures Hits(g.(statements := g.statements[id := row]), turns, scope, name)
         == Hits(g, turns, scope, name) + if FromTurns(row, turns, scope) then set e | e in ends :: (id, e) else {}
  {
    var after := Hits(g.(statements := g.statements[id := row]), turns, scope, name);
    var expected := Hits(g, turns, scope, name) + if FromTurns(row, turns, scope) then set e | e in ends :: (id, e) else {};
    forall s, e ensures (s, e) in after <==> (s, e) in expected {
      if s == id { assert (s, e) in after <==> FromTurns(row, turns, scope) && e in ends; }
    }
  }

  lemma {:induction false} PairsOf(id: string, ends: set<string>, pairs: set<(string, string)>)
    requires pairs == set e | e in ends :: (id, e)
    ensures |pairs| == |ends|
    decreases |ends|
  {
    if ends != {} {
      var e :| e in ends;
      assert pairs - {(id, e)} == set x | x in ends - {e} :: (id, x);
      PairsOf(id, ends - {e}, pairs - {(id, e)});
    }
  }

  /** Hits and names leave no ties: two answers to one question are the same list. */
  lemma SeedsAreUnique(g: Graph, turns: set<string>, scope: Scope, cap: nat, a: seq<string>, b: seq<string>)
    requires IsTop(MostHitsFirst(Counts(g, turns, scope)), Counts(g, turns, scope).Keys, cap, a)
    requires IsTop(MostHitsFirst(Counts(g, turns, scope)), Counts(g, turns, scope).Keys, cap, b)
    ensures a == b
  {
    var counts := Counts(g, turns, scope);
    MostHitsFirstIsTotal(counts);
    TopUnique(MostHitsFirst(counts), counts.Keys, cap, a, b);
  }

  /** For a fixed entity table the answer depends only on the statements the caller may see: no
      hidden row can spend the budget, or reveal itself by moving a name. */
  lemma HiddenRowsDoNotCount(g: Graph, h: Graph, turns: set<string>, scope: Scope)
    requires g.entities == h.entities
    requires forall id :: id in g.statements && Visible(g.statements[id], scope.audiences, scope.includeSensitive)
               ==> id in h.statements && h.statements[id] == g.statements[id]
    requires forall id :: id in h.statements && Visible(h.statements[id], scope.audiences, scope.includeSensitive)
               ==> id in g.statements && g.statements[id] == h.statements[id]
    ensures Counts(g, turns, scope) == Counts(h, turns, scope)
  {
    forall name ensures Hits(g, turns, scope, name) == Hits(h, turns, scope, name) {
      forall s, e ensures (s, e) in Hits(g, turns, scope, name) <==> (s, e) in Hits(h, turns, scope, name) {
      }
    }
  }
}
