/** What one write does, in the columns of the tables. */
module GraphWrites {
  import opened Text
  import opened Timestamps
  import opened KnowledgeGraph
  import opened GraphRuns
  import opened GraphHistory
  import Audience

  // ---- slugs ---------------------------------------------------------------

  lemma {:induction false} UnderscoredOfConcat(a: string, b: string)
    ensures Underscored(a + b) == Underscored(a) + Underscored(b)
  {
    if a == [] {
      assert a + b == b;
    } else {
      UnderscoredOfConcat(a[1..], b);
      assert (a + b)[1..] == a[1..] + b;
    }
  }

  lemma {:induction false} WithoutQuotesOfConcat(a: string, b: string)
    ensures WithoutQuotes(a + b) == WithoutQuotes(a) + WithoutQuotes(b)
  {
    if a == [] {
      assert a + b == b;
    } else {
      WithoutQuotesOfConcat(a[1..], b);
      assert (a + b)[1..] == a[1..] + b;
      var head := if a[0] == '\'' then [] else [a[0]];
      calc {
        WithoutQuotes(a + b);
        head + WithoutQuotes(a[1..] + b);
        head + (WithoutQuotes(a[1..]) + WithoutQuotes(b));
        head + WithoutQuotes(a[1..]) + WithoutQuotes(b);
        WithoutQuotes(a) + WithoutQuotes(b);
      }
    }
  }

  lemma SlugOfConcat(a: string, b: string)
    ensures Slug(a + b) == Slug(a) + Slug(b)
  {
    UnderscoredOfConcat(a, b);
    WithoutQuotesOfConcat(Underscored(a), Underscored(b));
  }

  lemma {:induction false} SlugFixesPlain(s: string)
    ensures |Slug(s)| <= |s| && ' ' !in Slug(s) && '\'' !in Slug(s)
    ensures Slug(s) == s <==> ' ' !in s && '\'' !in s
  {
    if s != [] {
      SlugFixesPlain(s[1..]);
      SlugOfConcat([s[0]], s[1..]);
      SlugOfOne(s[0]);
      assert s == [s[0]] + s[1..];
    }
  }

  lemma SlugOfOne(c: char)
    ensures Slug([c]) == if c == ' ' then "_" else if c == '\'' then "" else [c]
  {
    assert [c][1..] == [];
    var u := if c == ' ' then '_' else c;
    assert Underscored([c]) == [u] && [u][1..] == [];
    assert WithoutQuotes([u]) == if u == '\'' then [] else [u];
  }

  lemma SlugAround(a: string, c: char, b: string)
    ensures Slug(a + [c] + b) == Slug(a) + (if c == ' ' then "_" else if c == '\'' then "" else [c]) + Slug(b)
  {
    SlugOfConcat(a + [c], b);
    SlugOfConcat(a, [c]);
    SlugOfOne(c);
  }

  /** Spellings that are one entity: a blank for an underscore, and an apostrophe for nothing. An id
      has neither blanks nor apostrophes, and a lower-case name without them is its own id. */
  lemma SpellingsMeet(env: Env, name: string, other: string, a: string, b: string)
    requires || (env.lower(Strip(name)) == a + " " + b && env.lower(Strip(other)) == a + "_" + b)
             || (env.lower(Strip(name)) == a + "'" + b && env.lower(Strip(other)) == a + b)
    ensures EntityId(env, name) == EntityId(env, other)
    ensures ' ' !in EntityId(env, name) && '\'' !in EntityId(env, name)
  {
    SlugFixesPlain(env.lower(Strip(name)));
    SlugAround(a, ' ', b);
    SlugAround(a, '_', b);
    SlugAround(a, '\'', b);
    SlugOfConcat(a, b);
    assert Slug(a) + "" == Slug(a);
  }

  lemma PlainNameIsItsId(env: Env, name: string)
    requires ' ' !in env.lower(Strip(name)) && '\'' !in env.lower(Strip(name))
    ensures EntityId(env, name) == env.lower(Strip(name))
  {
    SlugFixesPlain(env.lower(Strip(name)));
  }

  // ---- statement ids -------------------------------------------------------

  /** The two parts of a text cut at the first separator. */
  lemma FirstSeparator(a: string, b: string, x: string, y: string)
    requires '\U{1F}' !in a && '\U{1F}' !in b
    ensures a + UNIT_SEPARATOR + x == b + UNIT_SEPARATOR + y <==> a == b && x == y
  {
    var s, t := a + UNIT_SEPARATOR + x, b + UNIT_SEPARATOR + y;
    if s == t {
      assert s[|a|] == '\U{1F}' && t[|b|] == '\U{1F}';
      assert forall i :: 0 <= i < |a| ==> s[i] == a[i] && a[i] in a;
      assert forall i :: 0 <= i < |b| ==> t[i] == b[i] && b[i] in b;
      assert a == s[..|a|] && b == t[..|b|] && x == s[|a| + 1..] && y == t[|b| + 1..];
    }
  }

  predicate NoSeparator(c: Claim) {
    '\U{1F}' !in c.subject && '\U{1F}' !in c.predicate_ && '\U{1F}' !in c.object_ && '\U{1F}' !in c.audience
  }

  /** As long as the digest tells texts apart, an id names one claim and one projection or one
      interval of it: private and shared facts, and the same fact held twice, never share a row. */
  lemma IdsTellStatementsApart(env: Env, c: Claim, started: string, recorded: string, p: Option<string>,
                               d: Claim, begun: string, noted: string, q: Option<string>)
    requires NoSeparator(c) && NoSeparator(d) && '\U{1F}' !in started && '\U{1F}' !in begun && Truthy(p) == Truthy(q)
    requires var x, y := IdText(c, Identity(started, recorded, p)), IdText(d, Identity(begun, noted, q));
      env.digest(x) == env.digest(y) ==> x == y
    ensures StatementId(env, c, started, recorded, p) == StatementId(env, d, begun, noted, q)
       <==> c == d && if Truthy(p) then p == q else started == begun && recorded == noted
  {
    var i, j := Identity(started, recorded, p), Identity(begun, noted, q);
    FirstSeparator(started, begun, recorded, noted);
    FirstSeparator(c.audience, d.audience, i, j);
    FirstSeparator(c.object_, d.object_, c.audience + UNIT_SEPARATOR + i, d.audience + UNIT_SEPARATOR + j);
    FirstSeparator(c.predicate_, d.predicate_, c.object_ + UNIT_SEPARATOR + (c.audience + UNIT_SEPARATOR + i),
                   d.object_ + UNIT_SEPARATOR + (d.audience + UNIT_SEPARATOR + j));
    FirstSeparator(c.subject, d.subject, c.predicate_ + UNIT_SEPARATOR + (c.object_ + UNIT_SEPARATOR + (c.audience + UNIT_SEPARATOR + i)),
                   d.predicate_ + UNIT_SEPARATOR + (d.object_ + UNIT_SEPARATOR + (d.audience + UNIT_SEPARATOR + j)));
    var x, y := env.digest(IdText(c, i)), env.digest(IdText(d, j));
    assert ("stmt_" + x)[5..] == x && ("stmt_" + y)[5..] == y;
  }

  // ---- adding --------------------------------------------------------------

  /** The row is about the same triple in the same audience. */
  predicate States(env: Env, row: Statement, t: NewTriple, audience: string) {
    && row.subject == EntityId(env, t.subject) && row.predicate_ == t.predicate_
    && row.object_ == EntityId(env, t.object_) && row.audience == audience
  }

  /** The row already stands for the statement to be added: it has its projection id, or states the
      same and comes from the same turn or is still open. */
  predicate StandsFor(env: Env, row: Statement, t: NewTriple, audience: string) {
    || (t.projection.Some? && row.projection == t.projection)
    || (States(env, row, t, audience) && row.validTo.None?)
    || (States(env, row, t, audience) && t.turn.Some? && t.turn.value != "" && row.turn == t.turn)
  }

  predicate NothingStands(env: Env, g: Graph, t: NewTriple, audience: string) {
    forall id | id in g.statements :: !StandsFor(env, g.statements[id], t, audience)
  }

  /** The row names another statement under the projection id asked for. */
  predicate NamesAnother(env: Env, row: Statement, t: NewTriple, audience: string) {
    t.projection.Some? && t.projection.value != "" && row.projection == t.projection && !States(env, row, t, audience)
  }

  /** The columns of a row that has just been added. */
  predicate RowAsAsked(env: Env, row: Statement, t: NewTriple, audience: string, clock: Clock) {
    && States(env, row, t, audience)
    && (row.sensitive <==> if t.sensitive.Some? then t.sensitive.value
                           else t.predicate_ == "has_health_condition" || t.predicate_ == "takes_medication" || t.predicate_ == "has_symptom")
    && row.validFrom == Some(if Canonical(env.parse, t.validFrom).Some? then Canonical(env.parse, t.validFrom).value else clock.start)
    && row.validTo == Canonical(env.parse, t.validTo)
    && row.recordedAt == clock.record && row.confidence == t.confidence
    && row.turn == t.turn && row.assertion == t.assertion && row.evidence == t.evidence
    && row.projection == t.projection && row.adapter == t.adapter
  }

  /** What an add leaves behind when it stores a row: the row, as asked, and names for its ends. */
  predicate StoredAsAsked(env: Env, g: Graph, t: NewTriple, audience: string, clock: Clock, h: Graph, id: string) {
    && id in h.statements && RowAsAsked(env, h.statements[id], t, audience, clock)
    && h.statements == g.statements[id := h.statements[id]] && h.mentions == g.mentions
    && h.entities.Keys == g.entities.Keys + {EntityId(env, t.subject), EntityId(env, t.object_)}
    && (forall e | e in g.entities :: h.entities[e] == g.entities[e])
    && (EntityId(env, t.subject) !in g.entities ==> h.entities[EntityId(env, t.subject)] == Strip(t.subject))
    && (EntityId(env, t.object_) !in g.entities && EntityId(env, t.object_) != EntityId(env, t.subject) ==>
          h.entities[EntityId(env, t.object_)] == Strip(t.object_))
  }

  /** When it stores nothing, and why. */
  lemma AddRefusedIff(env: Env, g: Graph, t: NewTriple, clock: Clock, r: Result<string, AddError>)
    requires AddReturns(env, g, t, clock, r)
    ensures r == Err(BadAudience) <==> Audience.Validate(t.audience).None?
    ensures Audience.Validate(t.audience).Some? ==>
      (r == Err(ProjectionTaken) <==>
         exists id | id in g.statements :: NamesAnother(env, g.statements[id], t, Audience.Validate(t.audience).value))
    ensures r.Err? ==> Added(env, g, t, clock) == g
  {
    if Audience.Validate(t.audience).Some? { WhatStands(env, g, t); }
  }

  /** The row that answers when several stand for the statement: the one with its projection id, else
      the one from its turn, closed or not, else the open one. */
  lemma AddReuses(env: Env, g: Graph, t: NewTriple, clock: Clock, id: string)
    requires Audience.Validate(t.audience).Some? && AddReturns(env, g, t, clock, Ok(id)) && id in g.statements
    ensures Added(env, g, t, clock) == g
    ensures var audience := Audience.Validate(t.audience).value;
      && States(env, g.statements[id], t, audience) && StandsFor(env, g.statements[id], t, audience)
      && (forall other :: other in g.statements && Truthy(t.projection) && g.statements[other].projection == t.projection ==>
            g.statements[id].projection == t.projection)
      && (forall other :: other in g.statements && Truthy(t.turn) && g.statements[other].turn == t.turn
                          && States(env, g.statements[other], t, audience) ==>
            g.statements[id].turn == t.turn || (Truthy(t.projection) && g.statements[id].projection == t.projection))
  {
    WhatStands(env, g, t);
    forall other | other in g.statements && Truthy(t.projection) && g.statements[other].projection == t.projection
      ensures g.statements[id].projection == t.projection
    {
      assert ProjectionHit(g, t.projection, other);
    }
    forall other | other in g.statements && Truthy(t.turn) && g.statements[other].turn == t.turn
                   && States(env, g.statements[other], t, Audience.Validate(t.audience).value)
      ensures g.statements[id].turn == t.turn || (Truthy(t.projection) && g.statements[id].projection == t.projection)
    {
      assert TurnHit(g, t.turn, ClaimAdded(env, t), other);
    }
  }

  lemma AddInserts(env: Env, g: Graph, t: NewTriple, clock: Clock, id: string)
    requires Audience.Validate(t.audience).Some? && AddReturns(env, g, t, clock, Ok(id)) && id !in g.statements
    ensures NothingStands(env, g, t, Audience.Validate(t.audience).value)
    ensures StoredAsAsked(env, g, t, Audience.Validate(t.audience).value, clock, Added(env, g, t, clock), id)
  {
    InsertsOnlyWhere(env, g, t, clock, id);
    NewRowAsAsked(env, t, clock);
  }

  lemma InsertsOnlyWhere(env: Env, g: Graph, t: NewTriple, clock: Clock, id: string)
    requires Audience.Validate(t.audience).Some? && AddReturns(env, g, t, clock, Ok(id)) && id !in g.statements
    ensures NothingStands(env, g, t, Audience.Validate(t.audience).value)
    ensures Added(env, g, t, clock) == Inserted(g, id, NewRow(env, t, ClaimAdded(env, t), clock), t.subject, t.object_)
  {
    assert Decide(env, g, t, clock).Insert?;
    WhatStands(env, g, t);
    InsertFacts(env, g, t, clock);
  }

  lemma NewRowAsAsked(env: Env, t: NewTriple, clock: Clock)
    requires Audience.Validate(t.audience).Some?
    ensures RowAsAsked(env, NewRow(env, t, ClaimAdded(env, t), clock), t, Audience.Validate(t.audience).value, clock)
  {
  }

  lemma AddMustInsert(env: Env, g: Graph, t: NewTriple, clock: Clock, r: Result<string, AddError>)
    requires Audience.Validate(t.audience).Some? && AddReturns(env, g, t, clock, r)
    requires NothingStands(env, g, t, Audience.Validate(t.audience).value)
    ensures r == Err(DuplicateKey) || (r.Ok? && r.value !in g.statements)
  {
    WhatStands(env, g, t);
  }

  /** The id that comes back always states what was asked. Nothing is stored when a row stands for it
      already, when the audience is refused, when the projection id names another statement or when
      the key is taken; otherwise one row, as asked, and the names of its ends if they are new. */
  lemma AddInColumns(env: Env, g: Graph, t: NewTriple, clock: Clock, r: Result<string, AddError>)
    requires AddReturns(env, g, t, clock, r)
    ensures r == Err(BadAudience) <==> Audience.Validate(t.audience).None?
    ensures Audience.Validate(t.audience).Some? ==>
      var h, audience := Added(env, g, t, clock), Audience.Validate(t.audience).value;
      && (r == Err(ProjectionTaken) <==> exists id | id in g.statements :: NamesAnother(env, g.statements[id], t, audience))
      && (r.Ok? ==> r.value in h.statements && States(env, h.statements[r.value], t, audience))
      && (r.Ok? && r.value in g.statements ==> StandsFor(env, g.statements[r.value], t, audience) && h == g)
      && (r.Ok? && r.value !in g.statements ==>
            NothingStands(env, g, t, audience) && StoredAsAsked(env, g, t, audience, clock, h, r.value))
      && (NothingStands(env, g, t, audience) ==> r == Err(DuplicateKey) || (r.Ok? && r.value !in g.statements))
    ensures r.Err? ==> Added(env, g, t, clock) == g
  {
    AddRefusedIff(env, g, t, clock, r);
    if Audience.Validate(t.audience).Some? {
      if r.Ok? && r.value in g.statements { AddReuses(env, g, t, clock, r.value); }
      if r.Ok? && r.value !in g.statements { AddInserts(env, g, t, clock, r.value); }
      if NothingStands(env, g, t, Audience.Validate(t.audience).value) { AddMustInsert(env, g, t, clock, r); }
    }
  }

  /** The three look-ups of an add find the rows that stand for it. */
  lemma WhatStands(env: Env, g: Graph, t: NewTriple)
    requires Audience.Validate(t.audience).Some?
    ensures var audience, claim := Audience.Validate(t.audience).value, ClaimAdded(env, t);
      forall id :: id in g.statements ==>
        && (States(env, g.statements[id], t, audience) <==> ClaimOf(g.statements[id]) == claim)
        && (StandsFor(env, g.statements[id], t, audience) <==>
              ProjectionHit(g, t.projection, id) || OpenHit(g, claim, id) || (Truthy(t.turn) && TurnHit(g, t.turn, claim, id)))
  {
  }

  /** Whether the request makes its row a sensitive one. */
  predicate AsksSensitive(t: NewTriple) {
    t.sensitive == Some(true) || (t.sensitive.None? && t.predicate_ in ["has_health_condition", "takes_medication", "has_symptom"])
  }

  /** From write to read: a statement that has just been added is among the rows of a read exactly
      when it holds at the moment, its audience is asked for, and it is not sensitive or sensitive
      rows are. Without a flag the health predicates are sensitive and no others. */
  lemma AddedIsReadIff(env: Env, g: Graph, t: NewTriple, clock: Clock, id: string, m: string, audiences: seq<string>, includeSensitive: bool)
    requires Audience.Validate(t.audience).Some? && AddReturns(env, g, t, clock, Ok(id)) && id !in g.statements
    ensures id in Candidates(Added(env, g, t, clock), m, audiences, includeSensitive)
       <==> && !Less(m, if Canonical(env.parse, t.validFrom).Some? then Canonical(env.parse, t.validFrom).value else clock.start)
            && (Canonical(env.parse, t.validTo).Some? ==> Less(m, Canonical(env.parse, t.validTo).value))
            && Audience.Validate(t.audience).value in audiences
            && (AsksSensitive(t) ==> includeSensitive)
  {
    AddInserts(env, g, t, clock, id);
  }

  /** And that does not wear off: whatever is written later, moves included, a surviving sensitive row
      is in no read that leaves sensitive rows out. */
  lemma SensitiveStaysHidden(env: Env, g: Graph, t: NewTriple, clock: Clock, id: string, ops: seq<Op>, m: string, audiences: seq<string>)
    requires Audience.Validate(t.audience).Some? && AddReturns(env, g, t, clock, Ok(id)) && id !in g.statements
    requires AsksSensitive(t) && Survives(env, Added(env, g, t, clock), ops, id)
    ensures id in Run(env, Added(env, g, t, clock), ops).statements
    ensures id !in Candidates(Run(env, Added(env, g, t, clock), ops), m, audiences, false)
  {
    AddInserts(env, g, t, clock, id);
    ClosingTimeIsFinal(env, Added(env, g, t, clock), ops, id);
  }

  // ---- ending, forgetting, moving ------------------------------------------

  /** One of these tokens is accepted and names the audience. */
  predicate Names(audiences: seq<string>, audience: string) {
    exists a | a in audiences :: Audience.Validate(a) == Some(audience)
  }

  /** Ending a fact touches the open rows of that triple in those audiences, sets their end and
      nothing else, and touches nothing at all when a token is refused. */
  lemma InvalidateInColumns(env: Env, g: Graph, subject: string, pred: string, object_: string, audiences: seq<string>,
                            ended: Option<string>, now: string)
    ensures var h := Invalidated(env, g, subject, pred, object_, audiences, ended, now);
      && h.statements.Keys == g.statements.Keys && h.entities == g.entities && h.mentions == g.mentions
      && forall id :: id in g.statements ==>
           h.statements[id] ==
             if && (forall a | a in audiences :: Audience.Validate(a).Some?)
                && g.statements[id].subject == EntityId(env, subject) && g.statements[id].predicate_ == pred
                && g.statements[id].object_ == EntityId(env, object_) && Names(audiences, g.statements[id].audience)
                && g.statements[id].validTo.None?
             then g.statements[id].(validTo := Some(if Canonical(env.parse, ended).Some? then Canonical(env.parse, ended).value else now))
             else g.statements[id]
  {
    if ValidateAll(audiences).Some? {
      forall audience ensures audience in ValidateAll(audiences).value <==> Names(audiences, audience) {
      }
    }
  }

  /** The row carries this assertion, turn or id. */
  predicate Carries(row: Statement, id: string, column: KeyColumn, key: string) {
    match column
    case SourceTurnId => row.turn == Some(key)
    case StatementIdColumn => id == key
    case AssertionId => row.assertion == Some(key)
  }

  /** Rows are picked by what they carry. */
  lemma KeyedCarry(g: Graph, column: KeyColumn, keys: set<string>)
    ensures forall id :: id in g.statements ==>
      (id in Keyed(g, column, keys) <==> exists key | key in keys :: Carries(g.statements[id], id, column, key))
  {
    forall id | id in g.statements
      ensures id in Keyed(g, column, keys) <==> exists key | key in keys :: Carries(g.statements[id], id, column, key)
    {
      if id in Keyed(g, column, keys) {
        var row := g.statements[id];
        var key := match column case SourceTurnId => row.turn.value case StatementIdColumn => id case AssertionId => row.assertion.value;
        assert key in keys && Carries(row, id, column, key);
      }
    }
  }

  /** The row carries one of the keys of a command, stripped; blank ones are none. */
  predicate CarriesOne(row: Statement, id: string, column: KeyColumn, values: seq<string>) {
    exists v | v in values :: Strip(v) != "" && Carries(row, id, column, Strip(v))
  }

  /** Row by row: the open rows that carry one of the keys get the end, and nothing else changes. */
  lemma SoftForgetInColumns(env: Env, g: Graph, column: KeyColumn, values: seq<string>, ended: Option<string>, now: string)
    ensures var h := Closed(g, Keyed(g, column, Wanted(values)), MomentOr(env, ended, now));
      && h.statements.Keys == g.statements.Keys
      && forall id :: id in g.statements ==>
           h.statements[id] == if g.statements[id].validTo.None? && CarriesOne(g.statements[id], id, column, values)
                               then g.statements[id].(validTo := Some(if Canonical(env.parse, ended).Some? then Canonical(env.parse, ended).value else now))
                               else g.statements[id]
  {
    KeyedCarry(g, column, Wanted(values));
    forall id | id in g.statements
      ensures id in Keyed(g, column, Wanted(values)) <==> CarriesOne(g.statements[id], id, column, values)
    {
      if v :| v in values && Strip(v) != "" && Carries(g.statements[id], id, column, Strip(v)) { assert Strip(v) in Wanted(values); }
    }
  }

  /** Adding and forgetting by the same assertion, turn or id: the row is gone, with every other row
      that carries the key, and those that do not are still there. */
  lemma ForgetWhatWasAdded(env: Env, g: Graph, t: NewTriple, clock: Clock, id: string, column: KeyColumn, key: string)
    requires Audience.Validate(t.audience).Some? && AddReturns(env, g, t, clock, Ok(id)) && id !in g.statements
    requires match column case AssertionId => t.assertion == Some(key) case SourceTurnId => t.turn == Some(key) case StatementIdColumn => id == key
    ensures var h := HardForgotten(Added(env, g, t, clock), column, {key});
      id !in h.statements
      && forall other :: other in g.statements ==> (other in h.statements <==> !Carries(g.statements[other], other, column, key))
  {
    AddInserts(env, g, t, clock, id);
    var first := Added(env, g, t, clock);
    KeyedCarry(first, column, {key});
    assert Carries(first.statements[id], id, column, key);
    assert HardForgotten(first, column, {key}).statements == Remaining(first, Keyed(first, column, {key}));
  }

  // ---- superseding ---------------------------------------------------------

  /** What the new half of a change leaves behind when it stores a row: the new object under the same
      subject and predicate, from the boundary on, open, with the change's confidence and turn, and
      sensitive as its predicate says; the old half has ended the open rows of the old object there. */
  lemma SupersedeInColumns(env: Env, g: Graph, c: Change, clock: ChangeClock, id: string)
    requires Audience.Validate(c.audience).Some? && Strip(clock.boundary) != ""
    requires AddReturns(env, OldEnded(env, g, c, clock), NewTripleOf(env, c, clock), clock.add, Ok(id)) && id !in g.statements
    ensures var h := Superseded(env, g, c, clock);
      && h.statements.Keys == g.statements.Keys + {id}
      && NewHalf(env, c, ChangedAt(env, c, clock), h.statements[id])
      && forall other :: other in g.statements ==>
           h.statements[other] == if OldHalf(env, c, g.statements[other])
                                  then g.statements[other].(validTo := Some(ChangedAt(env, c, clock))) else g.statements[other]
  {
    BoundaryIsShared(env, c, clock);
    OldEndedInColumns(env, g, c, clock);
    AddInserts(env, OldEnded(env, g, c, clock), NewTripleOf(env, c, clock), clock.add, id);
  }

  /** The moment of a change: the one given, or the clock's; normalised, and once more on the way in. */
  function ChangedAt(env: Env, c: Change, clock: ChangeClock): string {
    MomentOr(env, Some(if Canonical(env.parse, c.changedAt).Some? then Canonical(env.parse, c.changedAt).value else clock.boundary), clock.boundary)
  }

  predicate NewHalf(env: Env, c: Change, boundary: string, row: Statement) {
    && row.subject == EntityId(env, c.subject) && row.predicate_ == c.predicate_ && row.object_ == EntityId(env, c.newObject)
    && Audience.Validate(c.audience) == Some(row.audience) && row.validFrom == Some(boundary) && row.validTo == None
    && row.confidence == c.confidence && row.turn == c.turn
    && (row.sensitive <==> c.predicate_ in ["has_health_condition", "takes_medication", "has_symptom"])
  }

  predicate OldHalf(env: Env, c: Change, row: Statement) {
    && row.subject == EntityId(env, c.subject) && row.predicate_ == c.predicate_ && row.object_ == EntityId(env, c.oldObject)
    && Audience.Validate(c.audience) == Some(row.audience) && row.validTo.None?
  }

  lemma OldEndedInColumns(env: Env, g: Graph, c: Change, clock: ChangeClock)
    requires Audience.Validate(c.audience).Some? && Strip(clock.boundary) != ""
    ensures var h := OldEnded(env, g, c, clock);
      && h.statements.Keys == g.statements.Keys
      && forall other :: other in g.statements ==>
           h.statements[other] == if OldHalf(env, c, g.statements[other])
                                  then g.statements[other].(validTo := Some(ChangedAt(env, c, clock))) else g.statements[other]
  {
    BoundaryIsShared(env, c, clock);
    InvalidateInColumns(env, g, c.subject, c.predicate_, c.oldObject, [c.audience], Some(Boundary(env, c, clock)), clock.close);
    assert forall audience :: Names([c.audience], audience) <==> Audience.Validate(c.audience) == Some(audience) by {
      assert c.audience in [c.audience];
    }
  }

  // ---- mentions ------------------------------------------------------------

  /** An alias recorded for an entity, under any spelling of its name, joins to the entity's row: it
      stands under the id the statement gave that entity, in lower case, stripped, in the checked
      audience. */
  lemma MentionJoins(env: Env, g: Graph, t: NewTriple, clock: Clock, id: string,
                     entity: string, alias: string, audience: string, source: string, confidence: real)
    requires Audience.Validate(t.audience).Some? && AddReturns(env, g, t, clock, Ok(id)) && id !in g.statements
    requires EntityId(env, entity) == EntityId(env, t.subject) != ""
    requires env.lower(Strip(alias)) != "" && Audience.Validate(audience).Some?
    requires Audience.Validate(audience).value + ":" + EntityId(env, entity) + ":" + env.lower(Strip(alias)) !in g.mentions
    ensures var first := Added(env, g, t, clock);
      var h := Mentioned(env, first, entity, alias, audience, source, confidence);
      exists key | key in h.mentions ::
        && h.mentions[key] == Mention(EntityId(env, t.subject), env.lower(Strip(alias)), Audience.Validate(audience).value, source, confidence)
        && h.mentions[key].entity in h.entities
  {
    AddInserts(env, g, t, clock, id);
    var h := Mentioned(env, Added(env, g, t, clock), entity, alias, audience, source, confidence);
    var key := MentionKey(Audience.Validate(audience).value, EntityId(env, entity), env.lower(Strip(alias)));
    assert key in h.mentions && h.mentions[key].entity in h.entities;
  }

  /** A blank alias, a name whose id is empty and a refused audience store nothing, and only they. */
  lemma MentionSkippedIff(env: Env, entity: string, alias: string, audience: string, source: string, confidence: real)
    ensures Mentioned(env, EMPTY, entity, alias, audience, source, confidence) == EMPTY
       <==> env.lower(Strip(alias)) == "" || EntityId(env, entity) == "" || Audience.Validate(audience).None?
  {
    var m := MentionOf(env, entity, alias, audience, source, confidence);
    if m.Some? {
      assert MentionKey(m.value.audience, m.value.entity, m.value.alias)
        in Mentioned(env, EMPTY, entity, alias, audience, source, confidence).mentions;
    }
  }
}
