/** What every run of writes keeps. */
module GraphRuns {
  import opened Text
  import opened Timestamps
  import opened KnowledgeGraph
  import Audience

  datatype Op =
    | Add(t: NewTriple, clock: Clock)
    | Invalidate(subject: string, predicate_: string, object_: string, audiences: seq<string>,
                 ended: Option<string>, now: string)
    | SoftForget(column: KeyColumn, keys: set<string>, ended: Option<string>, now: string)
    | HardForget(column: KeyColumn, keys: set<string>)
    | Move(turns: set<string>, audience: string)
    | Supersede(change: Change, changeClock: ChangeClock)
    | RecordMention(entity: string, alias: string, audience: string, source: string, confidence: real)

  function Apply(env: Env, g: Graph, op: Op): Graph {
    match op
    case Add(t, clock) => Added(env, g, t, clock)
    case Invalidate(s, p, o, audiences, ended, now) => Invalidated(env, g, s, p, o, audiences, ended, now)
    case SoftForget(column, keys, ended, now) => Closed(g, Keyed(g, column, keys), MomentOr(env, ended, now))
    case HardForget(column, keys) => HardForgotten(g, column, keys)
    case Move(turns, audience) =>
      var target := Audience.Validate(audience);
      if target.None? then g else Moved(g, turns, target.value)
    case Supersede(change, clock) => Superseded(env, g, change, clock)
    case RecordMention(e, a, audience, source, confidence) => Mentioned(env, g, e, a, audience, source, confidence)
  }

  function Run(env: Env, g: Graph, ops: seq<Op>): Graph
    decreases |ops|
  {
    if ops == [] then g else Run(env, Apply(env, g, ops[0]), ops[1..])
  }

  lemma RunTwo(env: Env, g: Graph, a: Op, b: Op)
    ensures Run(env, g, [a, b]) == Apply(env, Apply(env, g, a), b)
  {
    var m := Apply(env, g, a);
    assert [a, b][1..] == [b] && [b][1..] == [];
    assert Run(env, m, [b]) == Run(env, Apply(env, m, b), []);
  }

  lemma RunThree(env: Env, g: Graph, a: Op, b: Op, c: Op)
    ensures Run(env, g, [a, b, c]) == Apply(env, Apply(env, Apply(env, g, a), b), c)
  {
    assert [a, b, c][1..] == [b, c];
    RunTwo(env, Apply(env, g, a), b, c);
  }

  lemma ApplyAdd(env: Env, g: Graph, t: NewTriple, clock: Clock)
    ensures Apply(env, g, Add(t, clock)) == Added(env, g, t, clock)
  {
  }

  // ---- the entity table ----------------------------------------------------

  /** Entities are exactly the ends of stored statements. */
  predicate EntitiesExact(g: Graph) {
    g.entities.Keys == Referenced(g.statements)
  }

  lemma InsertedKeepsEntities(g: Graph, id: string, row: Statement, subject: string, object_: string)
    requires EntitiesExact(g) && id !in g.statements
    ensures EntitiesExact(Inserted(g, id, row, subject, object_))
  {
    var after := g.statements[id := row];
    forall e | e in Referenced(g.statements) ensures e in Referenced(after) {
      var i :| i in g.statements && (g.statements[i].subject == e || g.statements[i].object_ == e);
      assert after[i] == g.statements[i];
    }
    assert after[id] == row;
    assert Referenced(after) == Referenced(g.statements) + {row.subject, row.object_};
  }

  lemma AddedKeepsEntities(env: Env, g: Graph, t: NewTriple, clock: Clock)
    requires EntitiesExact(g)
    ensures EntitiesExact(Added(env, g, t, clock))
  {
    var d := Decide(env, g, t, clock);
    if d.Insert? {
      InsertFacts(env, g, t, clock);
      InsertedKeepsEntities(g, d.id, d.row, t.subject, t.object_);
    }
  }

  /** Rewriting rows without touching their ends does not move the entity table. */
  lemma SameEndsSameReferences(before: map<string, Statement>, after: map<string, Statement>)
    requires before.Keys == after.Keys
    requires forall id :: id in before ==>
      after[id].subject == before[id].subject && after[id].object_ == before[id].object_
    ensures Referenced(after) == Referenced(before)
  {
  }

  lemma ClosedKeepsEntities(g: Graph, ids: set<string>, at: string)
    requires EntitiesExact(g)
    ensures EntitiesExact(Closed(g, ids, at))
  {
    SameEndsSameReferences(g.statements, Closed(g, ids, at).statements);
  }

  lemma InvalidatedKeepsEntities(env: Env, g: Graph, subject: string, pred: string, object_: string,
                                 audiences: seq<string>, ended: Option<string>, now: string)
    requires EntitiesExact(g)
    ensures EntitiesExact(Invalidated(env, g, subject, pred, object_, audiences, ended, now))
  {
    var checked := ValidateAll(audiences);
    if checked.Some? {
      ClosedKeepsEntities(g, Matching(env, g, subject, pred, object_, checked.value), MomentOr(env, ended, now));
    }
  }

  lemma StepKeepsEntities(env: Env, g: Graph, op: Op)
    requires EntitiesExact(g)
    ensures EntitiesExact(Apply(env, g, op))
  {
    match op
    case Add(t, clock) => AddedKeepsEntities(env, g, t, clock);
    case Invalidate(s, p, o, audiences, ended, now) => InvalidatedKeepsEntities(env, g, s, p, o, audiences, ended, now);
    case SoftForget(column, keys, ended, now) => ClosedKeepsEntities(g, Keyed(g, column, keys), MomentOr(env, ended, now));
    case HardForget(column, keys) => HardForgetIsExact(g, column, keys);
    case Move(turns, audience) => SameEndsSameReferences(g.statements, Apply(env, g, op).statements);
    case Supersede(c, clock) =>
      InvalidatedKeepsEntities(env, g, c.subject, c.predicate_, c.oldObject, [c.audience], Some(Boundary(env, c, clock)), clock.close);
      AddedKeepsEntities(env, OldEnded(env, g, c, clock), NewTripleOf(env, c, clock), clock.add);
    case RecordMention(_, _, _, _, _) =>
  }

  /** Over every run of writes from an empty graph the entity table is exactly the set of ends of
      the stored statements, so no read loses a row to its joins. */
  lemma EntitiesExactOverRuns(env: Env, g: Graph, ops: seq<Op>)
    requires EntitiesExact(g)
    ensures EntitiesExact(Run(env, g, ops))
    ensures forall id :: id in Run(env, g, ops).statements ==> Joined(Run(env, g, ops), Run(env, g, ops).statements[id])
    ensures forall e :: e in Run(env, g, ops).entities <==> IsAnEnd(Run(env, g, ops), e)
  {
    StaysExact(env, g, ops);
    ExactMeansUsed(Run(env, g, ops));
  }

  lemma {:induction false} StaysExact(env: Env, g: Graph, ops: seq<Op>)
    requires EntitiesExact(g)
    ensures EntitiesExact(Run(env, g, ops))
    decreases |ops|
  {
    if ops != [] {
      StepKeepsEntities(env, g, ops[0]);
      StaysExact(env, Apply(env, g, ops[0]), ops[1..]);
    }
  }

  /** Some statement has the entity as its subject or its object. */
  predicate IsAnEnd(g: Graph, e: string) {
    exists id | id in g.statements :: g.statements[id].subject == e || g.statements[id].object_ == e
  }

  lemma ExactMeansUsed(g: Graph)
    requires EntitiesExact(g)
    ensures forall id :: id in g.statements ==> Joined(g, g.statements[id])
    ensures forall e :: e in g.entities <==> IsAnEnd(g, e)
  {
    forall e ensures e in g.entities <==> IsAnEnd(g, e) {
      assert e in g.entities <==> e in Referenced(g.statements);
    }
    forall id | id in g.statements ensures Joined(g, g.statements[id]) {
      assert g.statements[id].subject in Referenced(g.statements) && g.statements[id].object_ in Referenced(g.statements);
    }
  }

  /** A hard forget removes exactly the keyed rows, exactly the entities that lost their last
      reference, and exactly the mentions of those; everything else is untouched. */
  lemma HardForgetIsExact(g: Graph, column: KeyColumn, keys: set<string>)
    requires EntitiesExact(g)
    ensures var h := HardForgotten(g, column, keys);
      && (forall id :: id in h.statements <==> id in g.statements && !KeyedBy(g, column, keys, id))
      && (forall id :: id in h.statements ==> h.statements[id] == g.statements[id])
      && h.entities.Keys == Referenced(h.statements)
      && g.entities.Keys - h.entities.Keys == Referenced(g.statements) - Referenced(h.statements)
      && (forall e :: e in h.entities ==> h.entities[e] == g.entities[e])
      && (forall m :: m in h.mentions <==> m in g.mentions && !(g.mentions[m].entity in g.entities && g.mentions[m].entity !in h.entities))
      && (forall m :: m in h.mentions ==> h.mentions[m] == g.mentions[m])
  {
    ReferencesSplit(g, Keyed(g, column, keys));
  }

  /** What the statements refer to is what the kept and the removed ones refer to. */
  lemma ReferencesSplit(g: Graph, doomed: set<string>)
    ensures Referenced(g.statements) == Referenced(Remaining(g, doomed)) + Referenced(Removed(g, doomed))
  {
    var kept, gone := Remaining(g, doomed), Removed(g, doomed);
    forall e | e in Referenced(g.statements) ensures e in Referenced(kept) + Referenced(gone) {
      var id :| id in g.statements && (g.statements[id].subject == e || g.statements[id].object_ == e);
      if id in doomed { assert gone[id] == g.statements[id]; } else { assert kept[id] == g.statements[id]; }
    }
    forall e | e in Referenced(kept) + Referenced(gone) ensures e in Referenced(g.statements) {
      if e in Referenced(kept) {
        var id :| id in kept && (kept[id].subject == e || kept[id].object_ == e);
        assert g.statements[id] == kept[id];
      } else {
        var id :| id in gone && (gone[id].subject == e || gone[id].object_ == e);
        assert g.statements[id] == gone[id];
      }
    }
  }

  /** The entity is there after every write of the run. */
  predicate EntitySurvives(env: Env, g: Graph, ops: seq<Op>, entity: string)
    decreases |ops|
  {
    entity in g.entities && (ops != [] ==> EntitySurvives(env, Apply(env, g, ops[0]), ops[1..], entity))
  }

  lemma StepKeepsNames(env: Env, g: Graph, op: Op, entity: string)
    requires entity in g.entities && entity in Apply(env, g, op).entities
    ensures Apply(env, g, op).entities[entity] == g.entities[entity]
  {
    match op
    case Add(t, clock) =>
    case Supersede(c, clock) => assert OldEnded(env, g, c, clock).entities == g.entities;
    case _ =>
  }

  /** An entity keeps the display name it was first stored under for as long as it is stored,
      whatever spelling later statements use. */
  lemma {:induction false} NamesStayOverRuns(env: Env, g: Graph, ops: seq<Op>, entity: string)
    requires EntitySurvives(env, g, ops, entity)
    ensures entity in Run(env, g, ops).entities && Run(env, g, ops).entities[entity] == g.entities[entity]
    decreases |ops|
  {
    if ops != [] {
      StepKeepsNames(env, g, ops[0], entity);
      NamesStayOverRuns(env, Apply(env, g, ops[0]), ops[1..], entity);
    }
  }

  // ---- no duplicates -------------------------------------------------------

  predicate SameOpen(a: Statement, b: Statement) {
    a.IsOpen() && b.IsOpen() && ClaimOf(a) == ClaimOf(b)
  }

  predicate SameProjection(a: Statement, b: Statement) {
    a.projection.Some? && a.projection == b.projection
  }

  predicate SameTurn(a: Statement, b: Statement) {
    Truthy(a.turn) && a.turn == b.turn && ClaimOf(a) == ClaimOf(b)
  }

  predicate OneOpen(g: Graph) {
    forall i, j | i in g.statements && j in g.statements && SameOpen(g.statements[i], g.statements[j]) :: i == j
  }

  predicate OnePerProjection(g: Graph) {
    forall i, j | i in g.statements && j in g.statements && SameProjection(g.statements[i], g.statements[j]) :: i == j
  }

  predicate OnePerTurn(g: Graph) {
    forall i, j | i in g.statements && j in g.statements && SameTurn(g.statements[i], g.statements[j]) :: i == j
  }

  predicate NoDuplicateFacts(g: Graph) {
    OneOpen(g) && OnePerProjection(g) && OnePerTurn(g)
  }

  /** Closing rows, or dropping some, makes no duplicates. */
  lemma FewerOpenKeepsUnique(g: Graph, h: Graph)
    requires NoDuplicateFacts(g)
    requires forall id :: id in h.statements ==>
      id in g.statements && (h.statements[id] == g.statements[id]
                             || (h.statements[id].validTo.Some? && h.statements[id] == g.statements[id].(validTo := h.statements[id].validTo)))
    ensures NoDuplicateFacts(h)
  {
    forall i, j | i in h.statements && j in h.statements
      ensures SameOpen(h.statements[i], h.statements[j]) ==> SameOpen(g.statements[i], g.statements[j])
      ensures SameTurn(h.statements[i], h.statements[j]) ==> SameTurn(g.statements[i], g.statements[j])
      ensures SameProjection(h.statements[i], h.statements[j]) ==> SameProjection(g.statements[i], g.statements[j])
    {
    }
  }

  lemma StepKeepsUnique(env: Env, g: Graph, op: Op)
    requires NoDuplicateFacts(g) && !op.Move?
    ensures NoDuplicateFacts(Apply(env, g, op))
  {
    match op
    case Add(t, clock) => AddedKeepsUnique(env, g, t, clock);
    case Supersede(c, clock) =>
      FewerOpenKeepsUnique(g, OldEnded(env, g, c, clock));
      AddedKeepsUnique(env, OldEnded(env, g, c, clock), NewTripleOf(env, c, clock), clock.add);
    case RecordMention(_, _, _, _, _) =>
    case _ => FewerOpenKeepsUnique(g, Apply(env, g, op));
  }

  lemma AddedKeepsUnique(env: Env, g: Graph, t: NewTriple, clock: Clock)
    requires NoDuplicateFacts(g)
    ensures NoDuplicateFacts(Added(env, g, t, clock))
  {
    var d := Decide(env, g, t, clock);
    if d.Insert? {
      InsertFacts(env, g, t, clock);
      InsertedKeepsUnique(g, d.id, d.row, t.subject, t.object_);
    }
  }

  lemma InsertedKeepsUnique(g: Graph, id: string, row: Statement, subject: string, object_: string)
    requires NoDuplicateFacts(g) && id !in g.statements
    requires !HasOpen(g, ClaimOf(row)) && (Truthy(row.turn) ==> !HasTurn(g, row.turn, ClaimOf(row)))
    requires !HasProjection(g, row.projection)
    ensures NoDuplicateFacts(Inserted(g, id, row, subject, object_))
  {
    forall i | i in g.statements
      ensures !SameOpen(g.statements[i], row) && !SameTurn(g.statements[i], row) && !SameProjection(g.statements[i], row)
    {
      assert !OpenHit(g, ClaimOf(row), i);
      assert Truthy(row.turn) ==> !TurnHit(g, row.turn, ClaimOf(row), i);
      assert !ProjectionHit(g, row.projection, i);
    }
    var h := Inserted(g, id, row, subject, object_);
    assert forall i :: i in h.statements && i != id ==> i in g.statements && h.statements[i] == g.statements[i];
  }

  /** Over every run without an audience move: at most one open row per scoped triple, one row per
      projection id, and one row per turn and scoped triple. */
  lemma {:induction false} NoDuplicatesOverRuns(env: Env, g: Graph, ops: seq<Op>)
    requires NoDuplicateFacts(g)
    requires forall i :: 0 <= i < |ops| ==> !ops[i].Move?
    ensures NoDuplicateFacts(Run(env, g, ops))
    decreases |ops|
  {
    if ops != [] {
      StepKeepsUnique(env, g, ops[0]);
      NoDuplicatesOverRuns(env, Apply(env, g, ops[0]), ops[1..]);
    }
  }

  /** Two open rows whose triples agree and that a move would put in one audience. */
  predicate Collides(g: Graph, turns: set<string>, audience: string, i: string, j: string)
    requires i in g.statements && j in g.statements
  {
    var a, b := g.statements[i], g.statements[j];
    && i != j && a.IsOpen() && b.IsOpen()
    && a.subject == b.subject && a.predicate_ == b.predicate_ && a.object_ == b.object_
    && KeyedBy(g, SourceTurnId, turns, i) && (KeyedBy(g, SourceTurnId, turns, j) || b.audience == audience)
  }

  /** A move looks for no duplicates. It keeps the graph free of them exactly when no two rows
      would meet in the target audience. */
  lemma MoveKeepsOneOpenIff(g: Graph, turns: set<string>, audience: string)
    requires OneOpen(g)
    ensures OneOpen(Moved(g, turns, audience))
       <==> !exists i, j | i in g.statements && j in g.statements :: Collides(g, turns, audience, i, j)
  {
    var h := Moved(g, turns, audience);
    if i, j :| i in g.statements && j in g.statements && Collides(g, turns, audience, i, j) {
      assert h.statements[i].IsOpen() && h.statements[j].IsOpen();
      assert ClaimOf(h.statements[i]) == ClaimOf(h.statements[j]);
    }
  }

  // ---- closing times -------------------------------------------------------

  /** A surviving row keeps its closing time once set, and everything else but its audience. */
  predicate Kept(a: Statement, b: Statement) {
    && (a.validTo.Some? ==> b.validTo == a.validTo)
    && b == a.(validTo := b.validTo, audience := b.audience)
  }

  lemma AddedKeepsRows(env: Env, g: Graph, t: NewTriple, clock: Clock, id: string)
    requires id in g.statements
    ensures id in Added(env, g, t, clock).statements && Added(env, g, t, clock).statements[id] == g.statements[id]
  {
    if Decide(env, g, t, clock).Insert? { InsertFacts(env, g, t, clock); }
  }

  lemma ClosedKeepsRow(g: Graph, ids: set<string>, at: string, id: string)
    requires id in g.statements
    ensures id in Closed(g, ids, at).statements && Kept(g.statements[id], Closed(g, ids, at).statements[id])
    ensures Closed(g, ids, at).statements[id].audience == g.statements[id].audience
  {
  }

  lemma SupersededKeepsRow(env: Env, g: Graph, c: Change, clock: ChangeClock, id: string)
    requires id in g.statements
    ensures id in Superseded(env, g, c, clock).statements
    ensures Kept(g.statements[id], Superseded(env, g, c, clock).statements[id])
    ensures Superseded(env, g, c, clock).statements[id].audience == g.statements[id].audience
  {
    var mid := OldEnded(env, g, c, clock);
    assert Kept(g.statements[id], mid.statements[id]) && mid.statements[id].audience == g.statements[id].audience;
    AddedKeepsRows(env, mid, NewTripleOf(env, c, clock), clock.add, id);
  }

  lemma StepKeepsRows(env: Env, g: Graph, op: Op, id: string)
    requires id in g.statements && id in Apply(env, g, op).statements
    ensures Kept(g.statements[id], Apply(env, g, op).statements[id])
    ensures !op.Move? ==> Apply(env, g, op).statements[id].audience == g.statements[id].audience
  {
    match op
    case Add(t, clock) => AddedKeepsRows(env, g, t, clock, id);
    case Supersede(c, clock) => SupersededKeepsRow(env, g, c, clock, id);
    case RecordMention(_, _, _, _, _) =>
    case Invalidate(s, p, o, audiences, ended, now) =>
      if ValidateAll(audiences).Some? {
        ClosedKeepsRow(g, Matching(env, g, s, p, o, ValidateAll(audiences).value), MomentOr(env, ended, now), id);
      }
    case SoftForget(column, keys, ended, now) =>
      ClosedKeepsRow(g, Keyed(g, column, keys), MomentOr(env, ended, now), id);
    case HardForget(_, _) =>
    case Move(_, _) =>
  }

  /** The row is there after every write of the run. */
  predicate Survives(env: Env, g: Graph, ops: seq<Op>, id: string)
    decreases |ops|
  {
    id in g.statements && (ops != [] ==> Survives(env, Apply(env, g, ops[0]), ops[1..], id))
  }

  lemma {:induction false} ClosingTimeIsFinal(env: Env, g: Graph, ops: seq<Op>, id: string)
    requires Survives(env, g, ops, id)
    ensures id in Run(env, g, ops).statements
    ensures var a, b := g.statements[id], Run(env, g, ops).statements[id];
      && Kept(a, b)
      && ((forall i :: 0 <= i < |ops| ==> !ops[i].Move?) ==> b.audience == a.audience)
    decreases |ops|
  {
    if ops != [] {
      StepKeepsRows(env, g, ops[0], id);
      ClosingTimeIsFinal(env, Apply(env, g, ops[0]), ops[1..], id);
    }
  }

  // ---- redelivery ----------------------------------------------------------

  /** Once an add has inserted its row, delivering it again at any later time returns that row and
      changes nothing, whatever was written in between short of an audience move, and even if the
      row has been closed. `GraphMoves` has the runs with moves. */
  lemma RedeliveryChangesNothing(env: Env, g: Graph, t: NewTriple, clock: Clock, ops: seq<Op>, again: Clock,
                                 r: Result<string, AddError>)
    requires NoDuplicateFacts(g)
    requires Decide(env, g, t, clock).Insert? && (Truthy(t.turn) || Truthy(t.projection))
    requires var id := Decide(env, g, t, clock).id; Survives(env, Added(env, g, t, clock), ops, id)
    requires forall i :: 0 <= i < |ops| ==> !ops[i].Move?
    requires var h := Run(env, Added(env, g, t, clock), ops); AddReturns(env, h, t, again, r)
    ensures var h := Run(env, Added(env, g, t, clock), ops); Added(env, h, t, again) == h
    ensures r == Ok(Decide(env, g, t, clock).id)
  {
    var first := Added(env, g, t, clock);
    var id := Decide(env, g, t, clock).id;
    AddedKeepsUnique(env, g, t, clock);
    NoDuplicatesOverRuns(env, first, ops);
    ClosingTimeIsFinal(env, first, ops, id);
    InsertFacts(env, g, t, clock);
    assert first.statements[id] == Decide(env, g, t, clock).row;
    CarriedRowAnswers(env, Run(env, first, ops), t, again, id, r);
  }

  /** A row that carries an add's projection or turn answers every delivery of it. */
  lemma CarriedRowAnswers(env: Env, g: Graph, t: NewTriple, clock: Clock, id: string, r: Result<string, AddError>)
    requires NoDuplicateFacts(g) && Audience.Validate(t.audience).Some?
    requires id in g.statements && ClaimOf(g.statements[id]) == ClaimAdded(env, t)
    requires g.statements[id].projection == t.projection && g.statements[id].turn == t.turn
    requires Truthy(t.turn) || Truthy(t.projection)
    requires AddReturns(env, g, t, clock, r)
    ensures Added(env, g, t, clock) == g && r == Ok(id)
  {
    var claim := ClaimAdded(env, t);
    if Truthy(t.projection) {
      assert ProjectionHit(g, t.projection, id);
      forall i | i in g.statements && ProjectionHit(g, t.projection, i) ensures i == id {
        assert SameProjection(g.statements[i], g.statements[id]);
      }
      assert Decide(env, g, t, clock) == ReuseProjection;
    } else {
      assert !HasProjection(g, t.projection) || !Truthy(t.projection);
      assert TurnHit(g, t.turn, claim, id);
      assert Decide(env, g, t, clock) == ReuseTurn;
      forall i | i in g.statements && TurnHit(g, t.turn, claim, i) ensures i == id {
        assert SameTurn(g.statements[i], g.statements[id]);
      }
    }
  }

  /** Only closings: invalidations and soft forgets. */
  predicate OnlyCloses(ops: seq<Op>) {
    forall i :: 0 <= i < |ops| ==> ops[i].Invalidate? || ops[i].SoftForget?
  }

  lemma {:induction false} ClosingsKeepCarriers(env: Env, g: Graph, ops: seq<Op>, turn: Option<string>, claim: Claim)
    requires OnlyCloses(ops)
    ensures HasTurn(Run(env, g, ops), turn, claim) <==> HasTurn(g, turn, claim)
    ensures Run(env, g, ops).statements.Keys == g.statements.Keys
    decreases |ops|
  {
    if ops != [] {
      var next := Apply(env, g, ops[0]);
      assert forall id :: id in g.statements ==> (TurnHit(next, turn, claim, id) <==> TurnHit(g, turn, claim, id));
      ClosingsKeepCarriers(env, next, ops[1..], turn, claim);
    }
  }

  /** The guard of the branch that loses a redelivery: the fact was open already, recorded by
      some other turn, so the delivery left no row of its own. */
  predicate AbsorbedByAnotherTurn(env: Env, g: Graph, t: NewTriple)
    requires Audience.Validate(t.audience).Some?
  {
    HasOpen(g, ClaimAdded(env, t)) && !HasTurn(g, t.turn, ClaimAdded(env, t))
  }

  /** A turn is delivered, the fact is then ended, and the turn is delivered again. The second
      delivery leaves the graph as it is exactly when the first one was not absorbed by a row of
      another turn. (Its key must be free, or the insert is refused and changes nothing either.) */
  lemma RedeliveryAfterClosingIff(env: Env, g: Graph, t: NewTriple, clock: Clock, ops: seq<Op>, again: Clock)
    requires Audience.Validate(t.audience).Some? && Truthy(t.turn) && t.projection.None?
    requires !Decide(env, g, t, clock).Refuse?
    requires OnlyCloses(ops)
    requires var h := Run(env, Added(env, g, t, clock), ops);
      !HasOpen(h, ClaimAdded(env, t)) && !Decide(env, h, t, again).Refuse?
    ensures var h := Run(env, Added(env, g, t, clock), ops);
      Added(env, h, t, again) == h <==> !AbsorbedByAnotherTurn(env, g, t)
  {
    var claim := ClaimAdded(env, t);
    var first := Added(env, g, t, clock);
    var h := Run(env, first, ops);
    ClosingsKeepCarriers(env, first, ops, t.turn, claim);
    NoProjection(g, t);
    NoProjection(h, t);
    var d := Decide(env, g, t, clock);
    if d.Insert? { assert TurnHit(first, t.turn, claim, d.id); }
    var e := Decide(env, h, t, again);
    if e.Insert? {
      assert e.id in Added(env, h, t, again).statements && e.id !in h.statements;
    }
  }

  lemma NoProjection(g: Graph, t: NewTriple)
    requires t.projection.None?
    ensures !HasProjection(g, t.projection)
  {
  }

  /** The loss in full: a first turn states a fact, a second turn states it again and is absorbed,
      the fact is ended, and the second turn is redelivered. The fact is open again. */
  lemma RedeliveryReopensFact(env: Env, first: NewTriple, second: NewTriple, clock: Clock, ended: Option<string>, now: string, again: Clock)
    requires Audience.Validate(first.audience).Some? && second == first.(turn := second.turn)
    requires Truthy(first.turn) && Truthy(second.turn) && first.turn != second.turn
    requires first.projection.None? && first.validTo.None?
    requires var claim := ClaimAdded(env, first);
      StatementId(env, claim, MomentOr(env, first.validFrom, clock.start), clock.record, None)
        != StatementId(env, claim, MomentOr(env, first.validFrom, again.start), again.record, None)
    ensures var claim := ClaimAdded(env, first);
      var stated := Added(env, EMPTY, first, clock);
      var over := Invalidated(env, stated, first.subject, first.predicate_, first.object_, [first.audience], ended, now);
      && Added(env, stated, second, clock) == stated
      && HasOpen(stated, claim) && !HasOpen(over, claim)
      && HasOpen(Added(env, over, second, again), claim)
  {
    var claim := ClaimAdded(env, first);
    var id := FirstStatement(env, first, clock);
    var stated := Added(env, EMPTY, first, clock);
    assert !TurnHit(stated, second.turn, claim, id);
    assert Decide(env, stated, second, clock) == ReuseOpen;
    var over := Invalidated(env, stated, first.subject, first.predicate_, first.object_, [first.audience], ended, now);
    assert first.audience in [first.audience];
    assert id in Matching(env, stated, first.subject, first.predicate_, first.object_, ValidateAll([first.audience]).value);
    assert over.statements.Keys == {id} && over.statements[id].validTo.Some? && over.statements[id].turn == first.turn;
    ReopenedBySecond(env, over, second, again, id);
  }

  /** The first statement of an empty graph. */
  lemma FirstStatement(env: Env, t: NewTriple, clock: Clock) returns (id: string)
    requires Audience.Validate(t.audience).Some? && t.projection.None? && t.validTo.None?
    ensures id == StatementId(env, ClaimAdded(env, t), MomentOr(env, t.validFrom, clock.start), clock.record, None)
    ensures Added(env, EMPTY, t, clock).statements == map[id := NewRow(env, t, ClaimAdded(env, t), clock)]
    ensures OpenHit(Added(env, EMPTY, t, clock), ClaimAdded(env, t), id)
  {
    var claim := ClaimAdded(env, t);
    var row := NewRow(env, t, claim, clock);
    id := StatementId(env, claim, row.validFrom.value, row.recordedAt, None);
    assert Decide(env, EMPTY, t, clock) == Insert(id, row);
  }

  lemma ReopenedBySecond(env: Env, over: Graph, t: NewTriple, again: Clock, id: string)
    requires Audience.Validate(t.audience).Some? && Truthy(t.turn) && t.projection.None? && t.validTo.None?
    requires over.statements.Keys == {id} && over.statements[id].validTo.Some? && over.statements[id].turn != t.turn
    requires id != StatementId(env, ClaimAdded(env, t), MomentOr(env, t.validFrom, again.start), again.record, None)
    ensures !HasOpen(over, ClaimAdded(env, t)) && HasOpen(Added(env, over, t, again), ClaimAdded(env, t))
  {
    var d := Decide(env, over, t, again);
    assert d.Insert?;
    assert OpenHit(Added(env, over, t, again), ClaimAdded(env, t), d.id);
  }
}
