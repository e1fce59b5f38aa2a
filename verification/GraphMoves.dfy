/** What audience moves do: they look for no duplicates and take rows away from the turns that would
    redeliver them. */
module GraphMoves {
  import opened Text
  import opened KnowledgeGraph
  import opened GraphRuns
  import Audience

  /** The rows of the turns change audience, and nothing else changes. */
  lemma MovedRows(g: Graph, turns: set<string>, audience: string)
    ensures var h := Moved(g, turns, audience);
      && h.statements.Keys == g.statements.Keys && h.entities == g.entities && h.mentions == g.mentions
      && Keyed(h, SourceTurnId, turns) == Keyed(g, SourceTurnId, turns)
      && forall id :: id in h.statements ==>
           h.statements[id] == if id in Keyed(g, SourceTurnId, turns) then g.statements[id].(audience := audience) else g.statements[id]
  {
  }

  // ---- duplicates ----------------------------------------------------------

  /** Two rows of one turn and one triple, in different audiences, that a move would put in one. */
  predicate TurnRowsMeet(g: Graph, turns: set<string>, i: string, j: string)
    requires i in g.statements && j in g.statements
  {
    var a, b := g.statements[i], g.statements[j];
    && i != j && Truthy(a.turn) && a.turn == b.turn && a.turn.value in turns
    && a.subject == b.subject && a.predicate_ == b.predicate_ && a.object_ == b.object_
  }

  predicate Meet(g: Graph, turns: set<string>, audience: string, i: string, j: string)
    requires i in g.statements && j in g.statements
  {
    Collides(g, turns, audience, i, j) || TurnRowsMeet(g, turns, i, j)
  }

  predicate NoneMeet(g: Graph, turns: set<string>, audience: string) {
    forall i, j | i in g.statements && j in g.statements :: !Meet(g, turns, audience, i, j)
  }

  lemma MoveKeepsOnePerTurnIff(g: Graph, turns: set<string>, audience: string)
    requires OnePerTurn(g)
    ensures OnePerTurn(Moved(g, turns, audience))
       <==> forall i, j | i in g.statements && j in g.statements :: !TurnRowsMeet(g, turns, i, j)
  {
    var h := Moved(g, turns, audience);
    if i, j :| i in g.statements && j in g.statements && TurnRowsMeet(g, turns, i, j) {
      assert SameTurn(h.statements[i], h.statements[j]);
    } else {
      forall i, j | i in h.statements && j in h.statements && SameTurn(h.statements[i], h.statements[j]) ensures i == j {
        assert !TurnRowsMeet(g, turns, i, j);
      }
    }
  }

  /** A move keeps the graph free of all three kinds of duplicates exactly when no two rows meet in
      the target audience: open rows of one triple, or rows of one moved turn and one triple. */
  lemma MoveKeepsNoDuplicatesIff(g: Graph, turns: set<string>, audience: string)
    requires NoDuplicateFacts(g)
    ensures NoDuplicateFacts(Moved(g, turns, audience)) <==> NoneMeet(g, turns, audience)
  {
    MoveKeepsOneOpenIff(g, turns, audience);
    MoveKeepsOnePerTurnIff(g, turns, audience);
    MoveKeepsProjections(g, turns, audience);
    if i, j :| i in g.statements && j in g.statements && Meet(g, turns, audience, i, j) {
      assert Collides(g, turns, audience, i, j) || TurnRowsMeet(g, turns, i, j);
    } else {
      forall i, j | i in g.statements && j in g.statements
        ensures !Collides(g, turns, audience, i, j) && !TurnRowsMeet(g, turns, i, j)
      {
        assert !Meet(g, turns, audience, i, j);
      }
    }
  }

  lemma MoveKeepsProjections(g: Graph, turns: set<string>, audience: string)
    requires OnePerProjection(g)
    ensures OnePerProjection(Moved(g, turns, audience))
  {
    var h := Moved(g, turns, audience);
    forall i, j | i in h.statements && j in h.statements && SameProjection(h.statements[i], h.statements[j]) ensures i == j {
      assert SameProjection(g.statements[i], g.statements[j]);
    }
  }

  /** One row per projection id, over every run, moves included. */
  lemma {:induction false} ProjectionsUniqueOverRuns(env: Env, g: Graph, ops: seq<Op>)
    requires OnePerProjection(g)
    ensures OnePerProjection(Run(env, g, ops))
    decreases |ops|
  {
    if ops != [] {
      StepKeepsProjections(env, g, ops[0]);
      ProjectionsUniqueOverRuns(env, Apply(env, g, ops[0]), ops[1..]);
    }
  }

  lemma StepKeepsProjections(env: Env, g: Graph, op: Op)
    requires OnePerProjection(g)
    ensures OnePerProjection(Apply(env, g, op))
  {
    match op
    case Add(t, clock) => AddedKeepsProjections(env, g, t, clock);
    case Supersede(c, clock) =>
      SameProjectionsKeep(g, OldEnded(env, g, c, clock));
      AddedKeepsProjections(env, OldEnded(env, g, c, clock), NewTripleOf(env, c, clock), clock.add);
    case RecordMention(_, _, _, _, _) =>
    case _ => SameProjectionsKeep(g, Apply(env, g, op));
  }

  lemma SameProjectionsKeep(g: Graph, h: Graph)
    requires OnePerProjection(g)
    requires forall id :: id in h.statements ==> id in g.statements && h.statements[id].projection == g.statements[id].projection
    ensures OnePerProjection(h)
  {
    forall i, j | i in h.statements && j in h.statements && SameProjection(h.statements[i], h.statements[j]) ensures i == j {
      assert SameProjection(g.statements[i], g.statements[j]);
    }
  }

  lemma AddedKeepsProjections(env: Env, g: Graph, t: NewTriple, clock: Clock)
    requires OnePerProjection(g)
    ensures OnePerProjection(Added(env, g, t, clock))
  {
    var d := Decide(env, g, t, clock);
    if d.Insert? {
      InsertFacts(env, g, t, clock);
      forall i | i in g.statements ensures !SameProjection(g.statements[i], d.row) {
        assert !ProjectionHit(g, t.projection, i);
      }
      var h := Added(env, g, t, clock);
      assert forall i :: i in h.statements && i != d.id ==> i in g.statements && h.statements[i] == g.statements[i];
    }
  }

  // ---- redelivery ----------------------------------------------------------

  /** Over every run, moves included: the row an add has inserted answers a redelivery exactly when
      its audience at that time is the one the add asked for; the graph then stays as it is. */
  lemma RedeliveryAnsweredIff(env: Env, g: Graph, t: NewTriple, clock: Clock, ops: seq<Op>, again: Clock)
    requires OnePerProjection(g)
    requires Decide(env, g, t, clock).Insert? && (Truthy(t.turn) || Truthy(t.projection))
    requires Survives(env, Added(env, g, t, clock), ops, Decide(env, g, t, clock).id)
    ensures var id, h := Decide(env, g, t, clock).id, Run(env, Added(env, g, t, clock), ops);
      && id in h.statements && Audience.Validate(t.audience).Some?
      && (AddReturns(env, h, t, again, Ok(id)) <==> h.statements[id].audience == ClaimAdded(env, t).audience)
      && (h.statements[id].audience == ClaimAdded(env, t).audience ==> Added(env, h, t, again) == h)
  {
    var first := Added(env, g, t, clock);
    var id := Decide(env, g, t, clock).id;
    InsertFacts(env, g, t, clock);
    AddedKeepsProjections(env, g, t, clock);
    ProjectionsUniqueOverRuns(env, first, ops);
    ClosingTimeIsFinal(env, first, ops, id);
    assert first.statements[id] == Decide(env, g, t, clock).row;
    OwnRowAnswersIff(env, Run(env, first, ops), t, again, id);
  }

  lemma OwnRowAnswersIff(env: Env, h: Graph, t: NewTriple, again: Clock, id: string)
    requires OnePerProjection(h) && id in h.statements && Audience.Validate(t.audience).Some?
    requires Truthy(t.turn) || Truthy(t.projection)
    requires h.statements[id].projection == t.projection && h.statements[id].turn == t.turn
    requires ClaimOf(h.statements[id]) == ClaimAdded(env, t).(audience := h.statements[id].audience)
    ensures AddReturns(env, h, t, again, Ok(id)) <==> h.statements[id].audience == ClaimAdded(env, t).audience
    ensures h.statements[id].audience == ClaimAdded(env, t).audience ==> Added(env, h, t, again) == h
  {
    if Truthy(t.projection) {
      assert ProjectionHit(h, t.projection, id);
      forall i | i in h.statements && ProjectionHit(h, t.projection, i) ensures i == id {
        assert SameProjection(h.statements[i], h.statements[id]);
      }
    } else if h.statements[id].audience == ClaimAdded(env, t).audience {
      assert TurnHit(h, t.turn, ClaimAdded(env, t), id);
      assert Decide(env, h, t, again) == ReuseTurn;
    } else {
      assert !TurnHit(h, t.turn, ClaimAdded(env, t), id) && !OpenHit(h, ClaimAdded(env, t), id);
    }
  }

  /** A turn is delivered, its row is moved, and it is delivered again. */
  function MovedAway(env: Env, t: NewTriple, clock: Clock, audience: string): Graph {
    Run(env, EMPTY, [Add(t, clock), Move({OrEmpty(t.turn)}, audience)])
  }

  /** The loss in full: the fact is open again in the audience the move took it from. */
  lemma MoveThenRedeliveryReopens(env: Env, t: NewTriple, clock: Clock, audience: string, again: Clock)
    requires Audience.Validate(t.audience).Some? && Audience.Validate(audience).Some?
    requires Audience.Validate(t.audience) != Audience.Validate(audience)
    requires Truthy(t.turn) && t.projection.None? && t.validTo.None?
    requires StatementId(env, ClaimAdded(env, t), MomentOr(env, t.validFrom, clock.start), clock.record, None)
          != StatementId(env, ClaimAdded(env, t), MomentOr(env, t.validFrom, again.start), again.record, None)
    ensures !HasOpen(MovedAway(env, t, clock, audience), ClaimAdded(env, t))
    ensures HasOpen(Added(env, MovedAway(env, t, clock, audience), t, again), ClaimAdded(env, t))
  {
    var id := FirstStatement(env, t, clock);
    var stated := Added(env, EMPTY, t, clock);
    var target := Audience.Validate(audience).value;
    var h := Moved(stated, {t.turn.value}, target);
    RunTwo(env, EMPTY, Add(t, clock), Move({t.turn.value}, audience));
    assert h.statements.Keys == {id} && h.statements[id].audience == target;
    var d := Decide(env, h, t, again);
    NoProjection(h, t);
    assert d.Insert?;
    assert OpenHit(Added(env, h, t, again), ClaimAdded(env, t), d.id);
  }

  /** Two turns state one fact in two audiences, and a move puts both rows in one. */
  lemma MoveMakesDuplicates(env: Env, t: NewTriple, u: NewTriple, clock: Clock)
    requires Audience.Validate(t.audience).Some? && Audience.Validate(u.audience).Some?
    requires Audience.Validate(t.audience) != Audience.Validate(u.audience)
    requires Truthy(t.turn) && u == t.(turn := u.turn, audience := u.audience) && t.projection.None? && t.validTo.None?
    requires StatementId(env, ClaimAdded(env, t), MomentOr(env, t.validFrom, clock.start), clock.record, None)
          != StatementId(env, ClaimAdded(env, u), MomentOr(env, u.validFrom, clock.start), clock.record, None)
    ensures NoDuplicateFacts(BothDelivered(env, t, u, clock))
    ensures !OneOpen(Apply(env, BothDelivered(env, t, u, clock), Move({t.turn.value}, u.audience)))
  {
    BothUnique(env, t, u, clock);
    var i, j := BothStated(env, t, u, clock);
    TwoRowsMeet(BothDelivered(env, t, u, clock), t.turn.value, Audience.Validate(u.audience).value, i, j);
  }

  function BothDelivered(env: Env, t: NewTriple, u: NewTriple, clock: Clock): Graph {
    Run(env, EMPTY, [Add(t, clock), Add(u, clock)])
  }

  lemma BothUnique(env: Env, t: NewTriple, u: NewTriple, clock: Clock)
    ensures NoDuplicateFacts(BothDelivered(env, t, u, clock))
  {
    var ops := [Add(t, clock), Add(u, clock)];
    NoDuplicatesOverRuns(env, EMPTY, ops);
  }

  /** Two open rows of one triple, one of them in the target audience. */
  predicate ReadyToMeet(g: Graph, turn: string, audience: string, i: string, j: string) {
    && i != j && i in g.statements && j in g.statements
    && var a, b := g.statements[i], g.statements[j];
    && a.IsOpen() && b.IsOpen() && a.turn == Some(turn) && b.audience == audience
    && a.subject == b.subject && a.predicate_ == b.predicate_ && a.object_ == b.object_
  }

  lemma TwoRowsMeet(g: Graph, turn: string, audience: string, i: string, j: string)
    requires OneOpen(g) && ReadyToMeet(g, turn, audience, i, j)
    ensures !OneOpen(Moved(g, {turn}, audience))
  {
    assert Collides(g, {turn}, audience, i, j);
    MoveKeepsOneOpenIff(g, {turn}, audience);
  }

  lemma BothStated(env: Env, t: NewTriple, u: NewTriple, clock: Clock) returns (i: string, j: string)
    requires Audience.Validate(t.audience).Some? && Audience.Validate(u.audience).Some?
    requires Audience.Validate(t.audience) != Audience.Validate(u.audience) && t.turn.Some?
    requires u == t.(turn := u.turn, audience := u.audience) && t.projection.None? && t.validTo.None?
    requires StatementId(env, ClaimAdded(env, t), MomentOr(env, t.validFrom, clock.start), clock.record, None)
          != StatementId(env, ClaimAdded(env, u), MomentOr(env, u.validFrom, clock.start), clock.record, None)
    ensures ReadyToMeet(BothDelivered(env, t, u, clock), t.turn.value, Audience.Validate(u.audience).value, i, j)
  {
    RunTwo(env, EMPTY, Add(t, clock), Add(u, clock));
    i := FirstStatement(env, t, clock);
    var stated := Added(env, EMPTY, t, clock);
    NoProjection(stated, u);
    assert !HasTurn(stated, u.turn, ClaimAdded(env, u)) && !HasOpen(stated, ClaimAdded(env, u));
    var d := Decide(env, stated, u, clock);
    assert d.Insert?;
    InsertFacts(env, stated, u, clock);
    j := d.id;
  }
}
