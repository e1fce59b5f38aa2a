/** Time in the graph: what later writes do to the past, and how one statement replaces another. */
module GraphHistory {
  import opened Text
  import opened Timestamps
  import opened KnowledgeGraph
  import opened GraphRuns
  import Audience

  // ---- the past is stable --------------------------------------------------

  /** The rows an as-of read considers before it ranks and cuts them. */
  function Candidates(g: Graph, moment: string, audiences: seq<string>, includeSensitive: bool): set<string> {
    set id | id in g.statements && ValidAt(g.statements[id], moment)
             && Visible(g.statements[id], audiences, includeSensitive) && Joined(g, g.statements[id])
  }

  /** Everything this write starts or ends, it starts or ends after `m`. */
  predicate After(env: Env, op: Op, m: string) {
    match op
    case Add(t, clock) => Less(m, MomentOr(env, t.validFrom, clock.start))
    case Invalidate(_, _, _, _, ended, now) => Less(m, MomentOr(env, ended, now))
    case SoftForget(_, _, ended, now) => Less(m, MomentOr(env, ended, now))
    case Supersede(c, clock) =>
      && Less(m, MomentOr(env, Some(Boundary(env, c, clock)), clock.close))
      && Less(m, MomentOr(env, Some(Boundary(env, c, clock)), clock.add.start))
    case RecordMention(_, _, _, _, _) => true
    case HardForget(_, _) => false
    case Move(_, _) => false
  }

  /** Two graphs answer every as-of-`m` read from the same rows: same candidates for every
      audience list, and rows that differ at most in a closing time after `m`. */
  ghost predicate SameAsOf(g: Graph, h: Graph, m: string) {
    && (forall audiences, s :: Candidates(g, m, audiences, s) == Candidates(h, m, audiences, s))
    && (forall id :: id in g.statements ==> id in h.statements && h.statements[id] == g.statements[id].(validTo := h.statements[id].validTo))
    && (forall e :: e in g.entities ==> e in h.entities && h.entities[e] == g.entities[e])
  }

  lemma ClosedLaterSameAsOf(g: Graph, ids: set<string>, at: string, m: string)
    requires Less(m, at)
    ensures SameAsOf(g, Closed(g, ids, at), m)
  {
    var h := Closed(g, ids, at);
    forall id | id in g.statements
      ensures ValidAt(h.statements[id], m) == ValidAt(g.statements[id], m)
    {
      ClosedRowSameAsOf(g.statements[id], at, m);
    }
  }

  lemma ClosedRowSameAsOf(row: Statement, at: string, m: string)
    requires Less(m, at)
    ensures row.IsOpen() ==> ValidAt(row.(validTo := Some(at)), m) == ValidAt(row, m)
  {
  }

  lemma InsertedLaterSameAsOf(g: Graph, id: string, row: Statement, subject: string, object_: string, m: string)
    requires EntitiesExact(g) && id !in g.statements
    requires row.validFrom.Some? && Less(m, row.validFrom.value)
    ensures SameAsOf(g, Inserted(g, id, row, subject, object_), m)
  {
    var h := Inserted(g, id, row, subject, object_);
    assert !ValidAt(row, m);
    forall i | i in g.statements
      ensures h.statements[i] == g.statements[i] && Joined(g, g.statements[i]) && Joined(h, g.statements[i])
    {
      assert g.statements[i].subject in Referenced(g.statements) && g.statements[i].object_ in Referenced(g.statements);
    }
  }

  lemma SameAsOfTransitive(a: Graph, b: Graph, c: Graph, m: string)
    requires SameAsOf(a, b, m) && SameAsOf(b, c, m)
    ensures SameAsOf(a, c, m)
  {
  }

  lemma AddedLaterSameAsOf(env: Env, g: Graph, t: NewTriple, clock: Clock, m: string)
    requires EntitiesExact(g) && Less(m, MomentOr(env, t.validFrom, clock.start))
    ensures SameAsOf(g, Added(env, g, t, clock), m)
  {
    var d := Decide(env, g, t, clock);
    if d.Insert? {
      InsertFacts(env, g, t, clock);
      InsertedLaterSameAsOf(g, d.id, d.row, t.subject, t.object_, m);
    }
  }

  lemma StepAfterSameAsOf(env: Env, g: Graph, op: Op, m: string)
    requires EntitiesExact(g) && After(env, op, m)
    ensures SameAsOf(g, Apply(env, g, op), m)
    decreases op.Supersede?
  {
    match op
    case Add(t, clock) => AddedLaterSameAsOf(env, g, t, clock, m);
    case Invalidate(s, p, o, audiences, ended, now) =>
      var checked := ValidateAll(audiences);
      if checked.Some? {
        ClosedLaterSameAsOf(g, Matching(env, g, s, p, o, checked.value), MomentOr(env, ended, now), m);
      }
    case SoftForget(column, keys, ended, now) =>
      ClosedLaterSameAsOf(g, Keyed(g, column, keys), MomentOr(env, ended, now), m);
    case Supersede(c, clock) =>
      var close := Invalidate(c.subject, c.predicate_, c.oldObject, [c.audience], Some(Boundary(env, c, clock)), clock.close);
      StepAfterSameAsOf(env, g, close, m);
      StepKeepsEntities(env, g, close);
      AddedLaterSameAsOf(env, OldEnded(env, g, c, clock), NewTripleOf(env, c, clock), clock.add, m);
      SameAsOfTransitive(g, OldEnded(env, g, c, clock), Apply(env, g, op), m);
    case RecordMention(_, _, _, _, _) =>
  }

  /** For any moment, any run of writes that start and end things only after it leaves every read
      as of that moment with the same candidates and the same ranking keys. */
  lemma {:induction false} PastIsStable(env: Env, g: Graph, ops: seq<Op>, m: string)
    requires EntitiesExact(g)
    requires forall i :: 0 <= i < |ops| ==> After(env, ops[i], m)
    ensures SameAsOf(g, Run(env, g, ops), m)
    decreases |ops|
  {
    if ops != [] {
      var next := Apply(env, g, ops[0]);
      StepAfterSameAsOf(env, g, ops[0], m);
      StepKeepsEntities(env, g, ops[0]);
      PastIsStable(env, next, ops[1..], m);
      SameAsOfTransitive(g, next, Run(env, g, ops), m);
    }
  }

  /** Closing rows as of `at` rewrites the past of `m` exactly when `m` has come by `at` and some
      row it closes already held at `m`. */
  lemma ClosingRewritesPastIff(g: Graph, ids: set<string>, at: string, m: string)
    requires EntitiesExact(g)
    ensures SameAsOf(g, Closed(g, ids, at), m)
       <==> Less(m, at) || !exists id | id in OpenAmong(g, ids) :: ValidAt(g.statements[id], m)
  {
    var h := Closed(g, ids, at);
    if Less(m, at) {
      ClosedLaterSameAsOf(g, ids, at, m);
    } else if id :| id in OpenAmong(g, ids) && ValidAt(g.statements[id], m) {
      var row := g.statements[id];
      assert row.subject in Referenced(g.statements) && row.object_ in Referenced(g.statements);
      assert h.statements[id] == row.(validTo := Some(at)) && !ValidAt(h.statements[id], m);
      var audiences := [row.audience];
      assert row.audience in audiences;
      assert id in Candidates(g, m, audiences, true);
      assert id !in Candidates(h, m, audiences, true);
      assert Candidates(g, m, audiences, true) != Candidates(h, m, audiences, true);
    } else {
      ClosedUnheldSameAsOf(g, ids, at, m);
    }
  }

  lemma ClosedUnheldSameAsOf(g: Graph, ids: set<string>, at: string, m: string)
    requires forall id :: id in OpenAmong(g, ids) ==> !ValidAt(g.statements[id], m)
    ensures SameAsOf(g, Closed(g, ids, at), m)
  {
    var h := Closed(g, ids, at);
    forall id | id in g.statements ensures ValidAt(h.statements[id], m) == ValidAt(g.statements[id], m) {
      if id in ids && g.statements[id].IsOpen() { assert id in OpenAmong(g, ids); }
    }
  }

  // ---- superseding ---------------------------------------------------------

  predicate StartedBy(row: Statement, moment: string) {
    row.validFrom.None? || AtMost(row.validFrom.value, moment)
  }

  /** From the old row's start on, exactly one of the two holds at every moment. */
  ghost predicate HandsOver(old_: Statement, new_: Statement) {
    forall m :: StartedBy(old_, m) ==> ValidAt(old_, m) != ValidAt(new_, m)
  }

  /** Both halves of a supersede normalise the boundary once more, and get the same text. */
  function SharedBoundary(env: Env, c: Change, clock: ChangeClock): string {
    MomentOr(env, Some(Boundary(env, c, clock)), clock.boundary)
  }

  lemma BoundaryIsShared(env: Env, c: Change, clock: ChangeClock)
    requires Strip(clock.boundary) != ""
    ensures MomentOr(env, Some(Boundary(env, c, clock)), clock.close) == SharedBoundary(env, c, clock)
    ensures MomentOr(env, Some(Boundary(env, c, clock)), clock.add.start) == SharedBoundary(env, c, clock)
  {
    if Canonical(env.parse, c.changedAt).Some? {
      CanonicalIsStripped(env.parse, c.changedAt);
    }
    assert Strip(Boundary(env, c, clock)) != "";
  }

  function OldClaim(env: Env, c: Change): Claim
    requires Audience.Validate(c.audience).Some?
  {
    Claim(EntityId(env, c.subject), c.predicate_, EntityId(env, c.oldObject), Audience.Validate(c.audience).value)
  }

  lemma ValidateOne(audience: string)
    requires Audience.Validate(audience).Some?
    ensures ValidateAll([audience]) == Some({Audience.Validate(audience).value})
  {
    var target := Audience.Validate(audience).value;
    assert audience in [audience];
    assert (set a | a in [audience] && Audience.Validate(a).Some? :: Audience.Validate(a).value) == {target};
  }

  /** The row that was open is closed at the shared boundary. */
  lemma OldRowEndsAtBoundary(env: Env, g: Graph, c: Change, clock: ChangeClock, old_: string)
    requires Audience.Validate(c.audience).Some? && Strip(clock.boundary) != ""
    requires OpenHit(g, OldClaim(env, c), old_)
    ensures old_ in OldEnded(env, g, c, clock).statements
    ensures OldEnded(env, g, c, clock).statements[old_]
         == g.statements[old_].(validTo := Some(SharedBoundary(env, c, clock)))
    ensures old_ in Superseded(env, g, c, clock).statements
    ensures Superseded(env, g, c, clock).statements[old_] == OldEnded(env, g, c, clock).statements[old_]
  {
    BoundaryIsShared(env, c, clock);
    ValidateOne(c.audience);
    assert old_ in Matching(env, g, c.subject, c.predicate_, c.oldObject, {Audience.Validate(c.audience).value});
    AddedKeepsRows(env, OldEnded(env, g, c, clock), NewTripleOf(env, c, clock), clock.add, old_);
  }

  /** A row that starts where another ends, and is open, takes over from it. */
  lemma OpenAtBoundaryHandsOver(old_: Statement, new_: Statement, b: string)
    requires old_.validTo == Some(b) && new_.validFrom == Some(b) && new_.validTo.None?
    ensures HandsOver(old_, new_)
  {
  }

  /** No gap and no overlap: with an open old statement that starts by the boundary, and no row yet
      for the new one, exactly one of the two holds at a moment if and only if the old one had
      started by then, and never both. */
  lemma SupersedeLeavesNoGap(env: Env, g: Graph, c: Change, clock: ChangeClock, old_: string)
    requires Audience.Validate(c.audience).Some? && Strip(clock.boundary) != ""
    requires OpenHit(g, OldClaim(env, c), old_)
    requires StartedBy(g.statements[old_], SharedBoundary(env, c, clock))
    requires forall id :: id in g.statements ==> ClaimOf(g.statements[id]) != ClaimAdded(env, NewTripleOf(env, c, clock))
    requires !Decide(env, OldEnded(env, g, c, clock), NewTripleOf(env, c, clock), clock.add).Refuse?
    ensures Decide(env, OldEnded(env, g, c, clock), NewTripleOf(env, c, clock), clock.add).Insert?
    ensures var new_ := Decide(env, OldEnded(env, g, c, clock), NewTripleOf(env, c, clock), clock.add).id;
      var h := Superseded(env, g, c, clock);
      && new_ in h.statements && old_ in h.statements
      && HandsOver(h.statements[old_], h.statements[new_])
      && forall m :: (ValidAt(h.statements[old_], m) || ValidAt(h.statements[new_], m) <==> StartedBy(g.statements[old_], m))
                  && !(ValidAt(h.statements[old_], m) && ValidAt(h.statements[new_], m))
  {
    var mid, t := OldEnded(env, g, c, clock), NewTripleOf(env, c, clock);
    var b := SharedBoundary(env, c, clock);
    OldRowEndsAtBoundary(env, g, c, clock, old_);
    BoundaryIsShared(env, c, clock);
    assert forall id :: id in mid.statements ==> ClaimOf(mid.statements[id]) == ClaimOf(g.statements[id]);
    NoProjection(mid, t);
    assert !HasTurn(mid, t.turn, ClaimAdded(env, t)) && !HasOpen(mid, ClaimAdded(env, t));
    InsertFacts(env, mid, t, clock.add);
    var d := Decide(env, mid, t, clock.add);
    var h := Superseded(env, g, c, clock);
    assert h.statements[d.id] == d.row;
    OpenAtBoundaryHandsOver(h.statements[old_], d.row, b);
    forall m ensures ValidAt(h.statements[old_], m) || ValidAt(d.row, m) <==> StartedBy(g.statements[old_], m)
      ensures !(ValidAt(h.statements[old_], m) && ValidAt(d.row, m))
    {
      if ValidAt(d.row, m) && g.statements[old_].validFrom.Some? {
        AtMostTransitive(g.statements[old_].validFrom.value, b, m);
      }
    }
  }

  lemma AtMostTransitive(a: string, b: string, c: string)
    requires AtMost(a, b) && AtMost(b, c)
    ensures AtMost(a, c)
  {
    LessTotal(a, b);
    LessTotal(b, c);
    if Less(a, b) && Less(b, c) {
      LessTransitive(a, b, c);
      LessAsymmetric(a, c);
    }
  }

  /** What a row must be, before the change, to take over from another at the boundary: open, and
      starting there. (A row that itself starts at the boundary holds at no moment afterwards, so
      anything open that has started by then takes over from it.) */
  predicate TakesOver(new_: Statement, old_: Statement, b: string) {
    new_.IsOpen() && (new_.validFrom == Some(b) || (old_.validFrom == Some(b) && StartedBy(new_, b)))
  }

  lemma HandsOverIff(old_: Statement, new_: Statement, b: string)
    requires old_.validTo == Some(b) && StartedBy(old_, b) && b != ""
    ensures HandsOver(old_, new_) <==> TakesOver(new_, old_, b)
  {
    if !TakesOver(new_, old_, b) {
      var m := HandOverFails(old_, new_, b);
      assert !HandsOver(old_, new_);
    } else if new_.validFrom != Some(b) {
      forall m | StartedBy(old_, m) ensures ValidAt(old_, m) != ValidAt(new_, m) {
        if new_.validFrom.Some? { AtMostTransitive(new_.validFrom.value, b, m); }
      }
    }
  }

  /** A moment at which the hand-over fails. */
  lemma HandOverFails(o: Statement, n: Statement, b: string) returns (m: string)
    requires o.validTo == Some(b) && StartedBy(o, b) && b != "" && !TakesOver(n, o, b)
    ensures StartedBy(o, m) && ValidAt(o, m) == ValidAt(n, m)
  {
    LessIrreflexive(b);
    if !ValidAt(n, b) {
      m := b;
    } else if n.validTo.Some? {
      m := n.validTo.value;
      LessIrreflexive(m);
      LessAsymmetric(b, m);
      if o.validFrom.Some? { AtMostTransitive(o.validFrom.value, b, m); }
    } else {
      m := BothHold(o, n, b);
    }
  }

  lemma BothHold(o: Statement, n: Statement, b: string) returns (m: string)
    requires o.validTo == Some(b) && StartedBy(o, b) && b != "" && n.validTo.None? && StartedBy(n, b)
    requires n.validFrom != Some(b) && o.validFrom != Some(b)
    ensures ValidAt(o, m) && ValidAt(n, m)
  {
    if o.validFrom.None? {
      m := if n.validFrom.None? then "" else n.validFrom.value;
      LessTotal(m, b);
      LessIrreflexive(m);
    } else {
      var a := o.validFrom.value;
      LessTotal(a, b);
      LessIrreflexive(a);
      if ValidAt(n, a) {
        m := a;
      } else {
        m := n.validFrom.value;
        LessAsymmetric(a, m);
        LessTotal(m, b);
        LessIrreflexive(m);
      }
    }
  }

  /** The rows of the graph before the change that will answer for the new statement: those of the
      same turn if there are any, else an open one, unless it is the very statement that is ended. */
  predicate Answers(env: Env, g: Graph, c: Change, clock: ChangeClock, id: string)
    requires Audience.Validate(c.audience).Some?
  {
    var claim := ClaimAdded(env, NewTripleOf(env, c, clock));
    if Truthy(c.turn) && HasTurn(g, c.turn, claim) then TurnHit(g, c.turn, claim, id)
    else OpenHit(g, claim, id) && claim != OldClaim(env, c)
  }

  /** Every row that will answer is another statement and takes over at the boundary. */
  ghost predicate AnswersTakeOver(env: Env, g: Graph, c: Change, clock: ChangeClock, old_: string)
    requires Audience.Validate(c.audience).Some? && old_ in g.statements
  {
    forall id :: Answers(env, g, c, clock, id) ==>
      && ClaimAdded(env, NewTripleOf(env, c, clock)) != OldClaim(env, c)
      && TakesOver(g.statements[id], g.statements[old_], SharedBoundary(env, c, clock))
  }

  /** Every row the supersede may return takes over without gap or overlap. */
  ghost predicate SupersedeHandsOver(env: Env, g: Graph, c: Change, clock: ChangeClock, old_: string) {
    var h := Superseded(env, g, c, clock);
    forall new_ :: AddReturns(env, OldEnded(env, g, c, clock), NewTripleOf(env, c, clock), clock.add, Ok(new_)) ==>
      old_ in h.statements && new_ in h.statements && HandsOver(h.statements[old_], h.statements[new_])
  }

  /** With an open old statement that starts by the boundary, the change leaves no gap and no overlap
      exactly when no row will answer for the new statement, or every row that will is open and
      starts at the boundary. All of it can be read off the graph before the change. */
  lemma SupersedeHandsOverIff(env: Env, g: Graph, c: Change, clock: ChangeClock, old_: string)
    requires Audience.Validate(c.audience).Some? && Strip(clock.boundary) != ""
    requires OpenHit(g, OldClaim(env, c), old_)
    requires StartedBy(g.statements[old_], SharedBoundary(env, c, clock))
    requires !Decide(env, OldEnded(env, g, c, clock), NewTripleOf(env, c, clock), clock.add).Refuse?
    ensures SupersedeHandsOver(env, g, c, clock, old_) <==> AnswersTakeOver(env, g, c, clock, old_)
  {
    var mid, t := OldEnded(env, g, c, clock), NewTripleOf(env, c, clock);
    OldRowEndsAtBoundary(env, g, c, clock, old_);
    NoProjection(mid, t);
    if Decide(env, mid, t, clock.add).Insert? {
      InsertedTakesOver(env, g, c, clock, old_);
    } else {
      forall id ensures AddReturns(env, mid, t, clock.add, Ok(id)) <==> Answers(env, g, c, clock, id) {
        AnswersIff(env, g, c, clock, id);
      }
      forall id | Answers(env, g, c, clock, id)
        ensures id in mid.statements && id in g.statements
        ensures HandsOver(mid.statements[old_], mid.statements[id])
           <==> ClaimAdded(env, t) != OldClaim(env, c)
                && TakesOver(g.statements[id], g.statements[old_], SharedBoundary(env, c, clock))
      {
        AnswerHandsOverIff(env, g, c, clock, old_, id);
      }
    }
  }

  /** Ending the old statement changes its own open rows and no others. */
  lemma OnlyOldEnds(env: Env, g: Graph, c: Change, clock: ChangeClock, id: string)
    requires Audience.Validate(c.audience).Some?
    ensures id in OldEnded(env, g, c, clock).statements <==> id in g.statements
    ensures id in g.statements && ClaimOf(g.statements[id]) != OldClaim(env, c) ==>
      OldEnded(env, g, c, clock).statements[id] == g.statements[id]
    ensures id in g.statements && ClaimOf(g.statements[id]) == OldClaim(env, c) ==>
      OldEnded(env, g, c, clock).statements[id].validTo.Some?
    ensures id in g.statements ==>
      OldEnded(env, g, c, clock).statements[id]
        == g.statements[id].(validTo := OldEnded(env, g, c, clock).statements[id].validTo)
  {
    ValidateOne(c.audience);
  }

  lemma TurnsSurviveEnding(env: Env, g: Graph, c: Change, clock: ChangeClock, claim: Claim)
    requires Audience.Validate(c.audience).Some?
    ensures HasTurn(OldEnded(env, g, c, clock), c.turn, claim) <==> HasTurn(g, c.turn, claim)
  {
    var mid := OldEnded(env, g, c, clock);
    forall id ensures TurnHit(mid, c.turn, claim, id) <==> TurnHit(g, c.turn, claim, id) {
      OnlyOldEnds(env, g, c, clock, id);
    }
    if id :| id in g.statements && TurnHit(g, c.turn, claim, id) {
      assert TurnHit(mid, c.turn, claim, id);
    }
    if id :| id in mid.statements && TurnHit(mid, c.turn, claim, id) {
      assert TurnHit(g, c.turn, claim, id);
    }
  }

  lemma OpenHitAfterEnding(env: Env, g: Graph, c: Change, clock: ChangeClock, claim: Claim, id: string)
    requires Audience.Validate(c.audience).Some?
    ensures OpenHit(OldEnded(env, g, c, clock), claim, id) <==> OpenHit(g, claim, id) && claim != OldClaim(env, c)
  {
    OnlyOldEnds(env, g, c, clock, id);
  }

  /** When nothing is inserted, the rows the add may return are those that answered before. */
  lemma AnswersIff(env: Env, g: Graph, c: Change, clock: ChangeClock, id: string)
    requires Audience.Validate(c.audience).Some?
    requires var d := Decide(env, OldEnded(env, g, c, clock), NewTripleOf(env, c, clock), clock.add); d.ReuseTurn? || d.ReuseOpen?
    ensures AddReturns(env, OldEnded(env, g, c, clock), NewTripleOf(env, c, clock), clock.add, Ok(id)) <==> Answers(env, g, c, clock, id)
  {
    var claim := ClaimAdded(env, NewTripleOf(env, c, clock));
    TurnsSurviveEnding(env, g, c, clock, claim);
    OpenHitAfterEnding(env, g, c, clock, claim, id);
    OnlyOldEnds(env, g, c, clock, id);
  }

  lemma InsertedTakesOver(env: Env, g: Graph, c: Change, clock: ChangeClock, old_: string)
    requires Audience.Validate(c.audience).Some? && Strip(clock.boundary) != ""
    requires OpenHit(g, OldClaim(env, c), old_)
    requires Decide(env, OldEnded(env, g, c, clock), NewTripleOf(env, c, clock), clock.add).Insert?
    ensures SupersedeHandsOver(env, g, c, clock, old_) && forall id :: !Answers(env, g, c, clock, id)
  {
    var mid, t := OldEnded(env, g, c, clock), NewTripleOf(env, c, clock);
    var claim := ClaimAdded(env, t);
    var d := Decide(env, mid, t, clock.add);
    OldRowEndsAtBoundary(env, g, c, clock, old_);
    BoundaryIsShared(env, c, clock);
    InsertFacts(env, mid, t, clock.add);
    OpenAtBoundaryHandsOver(mid.statements[old_], d.row, SharedBoundary(env, c, clock));
    TurnsSurviveEnding(env, g, c, clock, claim);
    forall id ensures !Answers(env, g, c, clock, id) {
      OpenHitAfterEnding(env, g, c, clock, claim, id);
      assert !OpenHit(mid, claim, id);
      assert Truthy(c.turn) ==> !TurnHit(g, c.turn, claim, id);
    }
  }

  lemma AnswerHandsOverIff(env: Env, g: Graph, c: Change, clock: ChangeClock, old_: string, id: string)
    requires Audience.Validate(c.audience).Some? && Strip(clock.boundary) != ""
    requires OpenHit(g, OldClaim(env, c), old_) && StartedBy(g.statements[old_], SharedBoundary(env, c, clock))
    requires id in g.statements && ClaimOf(g.statements[id]) == ClaimAdded(env, NewTripleOf(env, c, clock))
    ensures id in OldEnded(env, g, c, clock).statements && old_ in OldEnded(env, g, c, clock).statements
    ensures HandsOver(OldEnded(env, g, c, clock).statements[old_], OldEnded(env, g, c, clock).statements[id])
       <==> ClaimAdded(env, NewTripleOf(env, c, clock)) != OldClaim(env, c)
            && TakesOver(g.statements[id], g.statements[old_], SharedBoundary(env, c, clock))
  {
    OldRowEndsAtBoundary(env, g, c, clock, old_);
    OnlyOldEnds(env, g, c, clock, id);
    SharedBoundaryNotBlank(env, c, clock);
    HandsOverIff(OldEnded(env, g, c, clock).statements[old_], OldEnded(env, g, c, clock).statements[id], SharedBoundary(env, c, clock));
  }

  lemma SharedBoundaryNotBlank(env: Env, c: Change, clock: ChangeClock)
    requires Strip(clock.boundary) != ""
    ensures SharedBoundary(env, c, clock) != ""
  {
    if Canonical(env.parse, Some(Boundary(env, c, clock))).Some? {
      CanonicalIsStripped(env.parse, Some(Boundary(env, c, clock)));
    }
    assert Strip("") == "";
  }

  // ---- the changes that fail -----------------------------------------------

  /** The new statement is already open when the change arrives. */
  function ChangedLate(env: Env, t: NewTriple, u: NewTriple, clock: Clock, c: Change, at: ChangeClock): Graph {
    Run(env, EMPTY, [Add(t, clock), Add(u, clock), Supersede(c, at)])
  }

  /** Two statements about one subject, and the change from the first to the second; the moments are
      ones the normaliser leaves as they are. */
  ghost predicate LateChange(env: Env, t: NewTriple, u: NewTriple, clock: Clock, c: Change, x: string, y: string, b: string) {
    && Audience.Validate(t.audience).Some? && t.projection.None? && t.validTo.None?
    && u == t.(object_ := u.object_, validFrom := Some(y)) && t.validFrom == Some(x)
    && c == Change(t.subject, t.predicate_, t.object_, u.object_, t.audience, Some(b), c.confidence, None)
    && EntityId(env, t.object_) != EntityId(env, u.object_)
    && StaysAsIs(env, x) && StaysAsIs(env, y) && StaysAsIs(env, b)
    && StatementId(env, ClaimAdded(env, t), x, clock.record, None) != StatementId(env, ClaimAdded(env, u), y, clock.record, None)
  }

  function SampleTriple(subject: string, object_: string, x: string): NewTriple {
    NewTriple(subject, "p", object_, Audience.OWNER, Some(x), None, 1.0, None, None, None, None, None, None)
  }

  function SampleChange(subject: string, old_: string, new_: string, b: string): Change {
    Change(subject, "p", old_, new_, Audience.OWNER, Some(b), 1.0, None)
  }

  /** Such changes exist, with the new statement starting before the boundary or after it: any letters
      for names and any digits for moments, where nothing is a date to the parser. */
  lemma SampleIsLate(env: Env, subject: string, old_: string, new_: string, x: string, y: string, b: string)
    requires forall s :: env.parse(s) == Unparseable && env.lower(s) == s && env.digest(s) == s
    requires OneLetter(subject) && OneLetter(old_) && OneLetter(new_) && old_ != new_
    requires ShortDigits(x) && ShortDigits(y) && ShortDigits(b) && |x| != |y|
    ensures var t := SampleTriple(subject, old_, x);
      LateChange(env, t, t.(object_ := new_, validFrom := Some(y)), Clock("0", "0"), SampleChange(subject, old_, new_, b), x, y, b)
  {
    var t := SampleTriple(subject, old_, x);
    var u := t.(object_ := new_, validFrom := Some(y));
    StripFixesStripped(Audience.OWNER);
    LetterIsItsSlug(env, subject);
    LetterIsItsSlug(env, old_);
    LetterIsItsSlug(env, new_);
    DigitsStay(env, x);
    DigitsStay(env, y);
    DigitsStay(env, b);
    IdsOfOtherLength(env, ClaimAdded(env, t), ClaimAdded(env, u), x, y, "0");
  }

  lemma IdsOfOtherLength(env: Env, a: Claim, b: Claim, x: string, y: string, recorded: string)
    requires forall s :: env.digest(s) == s
    requires |a.subject| == |b.subject| && |a.predicate_| == |b.predicate_| && |a.object_| == |b.object_| && |a.audience| == |b.audience|
    requires |x| != |y|
    ensures StatementId(env, a, x, recorded, None) != StatementId(env, b, y, recorded, None)
  {
    assert |StatementId(env, a, x, recorded, None)| - |x| == |StatementId(env, b, y, recorded, None)| - |y|;
  }

  predicate OneLetter(s: string) {
    |s| == 1 && 'a' <= s[0] <= 'z'
  }

  predicate ShortDigits(s: string) {
    1 <= |s| <= 2 && forall i :: 0 <= i < |s| ==> '0' <= s[i] <= '9'
  }

  lemma LetterIsItsSlug(env: Env, s: string)
    requires OneLetter(s) && env.lower(s) == s
    ensures EntityId(env, s) == s
  {
    StripFixesStripped(s);
    assert s == [s[0]] && s[1..] == [];
    assert Underscored(s) == [s[0]] + Underscored([]) == s;
    assert WithoutQuotes(s) == [s[0]] + WithoutQuotes([]) == s;
  }

  lemma DigitsStay(env: Env, s: string)
    requires ShortDigits(s) && env.parse(SpellOutZ(s)) == Unparseable
    ensures StaysAsIs(env, s)
  {
    StripFixesStripped(s);
  }

  predicate StaysAsIs(env: Env, moment: string) {
    Canonical(env.parse, Some(moment)) == Some(moment)
  }

  /** What is left: the old statement closed at the boundary and the new one open from its own start. */
  lemma LateChangeLeaves(env: Env, t: NewTriple, u: NewTriple, clock: Clock, c: Change, at: ChangeClock,
                         x: string, y: string, b: string) returns (i: string, j: string)
    requires LateChange(env, t, u, clock, c, x, y, b)
    ensures EndedAndOpen(ChangedLate(env, t, u, clock, c, at), ClaimAdded(env, t), ClaimAdded(env, u), i, j, x, y, b)
  {
    i, j := LateChangeStart(env, t, u, clock, c, x, y, b);
    ChangedLateIs(env, t, u, clock, c, at);
    LateClaims(env, t, u, clock, c, at, x, y, b);
    LateChangeEnds(env, BothStated(env, t, u, clock), c, at, i, j, x, y, b);
  }

  /** One statement closed at the boundary, one open from its own start. */
  predicate EndedAndOpen(g: Graph, old_: Claim, new_: Claim, i: string, j: string, x: string, y: string, b: string) {
    && i in g.statements && j in g.statements
    && ClaimOf(g.statements[i]) == old_ && ClaimOf(g.statements[j]) == new_
    && g.statements[i].validFrom == Some(x) && g.statements[i].validTo == Some(b)
    && g.statements[j].validFrom == Some(y) && g.statements[j].IsOpen()
  }

  lemma ChangedLateIs(env: Env, t: NewTriple, u: NewTriple, clock: Clock, c: Change, at: ChangeClock)
    ensures ChangedLate(env, t, u, clock, c, at) == Superseded(env, BothStated(env, t, u, clock), c, at)
  {
    var a, b, d := Add(t, clock), Add(u, clock), Supersede(c, at);
    RunThree(env, EMPTY, a, b, d);
    ApplyAdd(env, EMPTY, t, clock);
    ApplyAdd(env, Added(env, EMPTY, t, clock), u, clock);
    ApplySupersede(env, BothStated(env, t, u, clock), c, at);
  }

  lemma ApplySupersede(env: Env, g: Graph, c: Change, at: ChangeClock)
    ensures Apply(env, g, Supersede(c, at)) == Superseded(env, g, c, at)
  {
  }

  lemma LateClaims(env: Env, t: NewTriple, u: NewTriple, clock: Clock, c: Change, at: ChangeClock, x: string, y: string, b: string)
    requires LateChange(env, t, u, clock, c, x, y, b)
    ensures ClaimAdded(env, NewTripleOf(env, c, at)) == ClaimAdded(env, u) && OldClaim(env, c) == ClaimAdded(env, t)
    ensures ClaimAdded(env, t) != ClaimAdded(env, u)
  {
  }

  function BothStated(env: Env, t: NewTriple, u: NewTriple, clock: Clock): Graph {
    Added(env, Added(env, EMPTY, t, clock), u, clock)
  }

  lemma LateChangeStart(env: Env, t: NewTriple, u: NewTriple, clock: Clock, c: Change, x: string, y: string, b: string)
    returns (i: string, j: string)
    requires LateChange(env, t, u, clock, c, x, y, b)
    ensures OpenHit(BothStated(env, t, u, clock), ClaimAdded(env, t), i)
    ensures OpenHit(BothStated(env, t, u, clock), ClaimAdded(env, u), j)
    ensures BothStated(env, t, u, clock).statements[i].validFrom == Some(x)
    ensures BothStated(env, t, u, clock).statements[j].validFrom == Some(y)
  {
    i := FirstStatement(env, t, clock);
    j := SecondStatement(env, Added(env, EMPTY, t, clock), u, clock, i);
  }

  lemma SecondStatement(env: Env, g: Graph, u: NewTriple, clock: Clock, i: string) returns (j: string)
    requires Audience.Validate(u.audience).Some? && u.projection.None? && u.validTo.None?
    requires g.statements.Keys == {i} && ClaimOf(g.statements[i]) != ClaimAdded(env, u)
    requires i != StatementId(env, ClaimAdded(env, u), MomentOr(env, u.validFrom, clock.start), clock.record, None)
    ensures j != i && Added(env, g, u, clock).statements == g.statements[j := NewRow(env, u, ClaimAdded(env, u), clock)]
    ensures NewRow(env, u, ClaimAdded(env, u), clock).IsOpen()
  {
    NoProjection(g, u);
    assert !HasTurn(g, u.turn, ClaimAdded(env, u)) && !HasOpen(g, ClaimAdded(env, u));
    var d := Decide(env, g, u, clock);
    assert d.Insert?;
    j := d.id;
  }

  lemma LateChangeEnds(env: Env, both: Graph, c: Change, at: ChangeClock, i: string, j: string, x: string, y: string, b: string)
    requires Audience.Validate(c.audience).Some? && c.turn.None? && c.changedAt == Some(b) && StaysAsIs(env, b)
    requires OpenHit(both, OldClaim(env, c), i) && OpenHit(both, ClaimAdded(env, NewTripleOf(env, c, at)), j)
    requires OldClaim(env, c) != ClaimAdded(env, NewTripleOf(env, c, at))
    requires both.statements[i].validFrom == Some(x) && both.statements[j].validFrom == Some(y)
    ensures EndedAndOpen(Superseded(env, both, c, at), OldClaim(env, c), ClaimAdded(env, NewTripleOf(env, c, at)), i, j, x, y, b)
  {
    var mid, t := OldEnded(env, both, c, at), NewTripleOf(env, c, at);
    ValidateOne(c.audience);
    assert Boundary(env, c, at) == b && MomentOr(env, Some(b), at.close) == b;
    OnlyOldEnds(env, both, c, at, j);
    assert i in Matching(env, both, c.subject, c.predicate_, c.oldObject, {Audience.Validate(c.audience).value});
    OpenHitAfterEnding(env, both, c, at, ClaimAdded(env, t), j);
    NoProjection(mid, t);
    assert Decide(env, mid, t, at.add) == ReuseOpen;
  }

  /** The new statement was open before the boundary: the two overlap. */
  lemma LateChangeOverlaps(env: Env, t: NewTriple, u: NewTriple, clock: Clock, c: Change, at: ChangeClock,
                           x: string, y: string, b: string) returns (i: string, j: string, m: string)
    requires LateChange(env, t, u, clock, c, x, y, b) && Less(x, b) && Less(y, b)
    ensures EndedAndOpen(ChangedLate(env, t, u, clock, c, at), ClaimAdded(env, t), ClaimAdded(env, u), i, j, x, y, b)
    ensures var h := ChangedLate(env, t, u, clock, c, at).statements;
      && ValidAt(h[i], m) && ValidAt(h[j], m)
  {
    i, j := LateChangeLeaves(env, t, u, clock, c, at, x, y, b);
    m := if Less(x, y) then y else x;
    LessIrreflexive(m);
    if Less(x, y) { LessAsymmetric(x, y); }
  }

  /** The new statement starts after the boundary: at the boundary neither holds. */
  lemma LateChangeLeavesAGap(env: Env, t: NewTriple, u: NewTriple, clock: Clock, c: Change, at: ChangeClock,
                             x: string, y: string, b: string) returns (i: string, j: string)
    requires LateChange(env, t, u, clock, c, x, y, b) && Less(x, b) && Less(b, y)
    ensures EndedAndOpen(ChangedLate(env, t, u, clock, c, at), ClaimAdded(env, t), ClaimAdded(env, u), i, j, x, y, b)
    ensures var h := ChangedLate(env, t, u, clock, c, at).statements;
      && ValidAt(h[i], x) && !ValidAt(h[i], b) && !ValidAt(h[j], b) && ValidAt(h[j], y)
  {
    i, j := LateChangeLeaves(env, t, u, clock, c, at, x, y, b);
    LessIrreflexive(b);
    LessIrreflexive(x);
    LessIrreflexive(y);
  }
}
