/** One palace's vector store behind the space lock: operations whose callers may be cancelled, and
    a close that waits for the work and not for the callers.

    A state is everything between two awaits of the event loop; a step is what one task does until
    its next await. The graph shares the lock, and its own calls are not shielded from
    cancellation, so they appear only as other users of the lock. */
module LockedBackend {
  import opened SpaceLock

  /** One admitted operation: its side of the lock, whether its caller gave it up before or after
      it started, and whether the store is working on it now. */
  datatype Operation = Operation(write: bool, started: bool, working: bool, cancelled: bool, detached: bool)

  /** A close gathers the operations that are listed when its task first runs, waits for those, and
      takes the lock. */
  datatype CloseTask = NotAsked | Asked | Draining(waiting: set<Id>) | Taking(id: Id) | Succeeded | Failed

  /** `operations` are all that were ever admitted; `listed` is the set the object keeps, from which a
      finished operation is discarded some time later. */
  datatype State = State(
    lock: Lock, operations: map<Id, Operation>, listed: set<Id>, closing: bool, close: CloseTask)

  const INITIAL := State(UNUSED, map[], {}, false, NotAsked)

  datatype Step =
    | Call(i: Id, write: bool)
    | Proceed(i: Id)
    | CallerCancelled(i: Id)
    | Abandon(i: Id)
    | WorkEnds(i: Id)
    | Release(i: Id)
    | Discard(i: Id)
    | AskClose
    | Gather
    | Drained(id: Id)
    | CloserLooks
    | InnerCloseEnds(ok: bool)
    | GraphMove(i: Id, move: Move)

  function Side(write: bool): Want {
    if write then Write else Read
  }

  predicate Finished(s: State, i: Id) {
    i in s.lock.users && s.lock.users[i].place.Gone?
  }

  predicate AllFinished(s: State) {
    forall i :: i in s.operations ==> Finished(s, i)
  }

  predicate CanStep(s: State, step: Step) {
    match step
    case Call(i, _) => !s.closing && Enabled(s.lock, i, Join(Side(step.write)))
    case Proceed(i) => i in s.operations && !s.operations[i].cancelled && Enabled(s.lock, i, Look)
    case CallerCancelled(i) => i in s.operations && !s.operations[i].cancelled
    case Abandon(i) => i in s.operations && s.operations[i].cancelled && Enabled(s.lock, i, GiveUp)
    case WorkEnds(i) => i in s.operations && s.operations[i].working
    case Release(i) => i in s.operations && !s.operations[i].working && Enabled(s.lock, i, SpaceLock.Leave)
    case Discard(i) => i in s.listed && Finished(s, i)
    case AskClose => true
    case Gather => s.close.Asked?
    case Drained(id) =>
      s.close.Draining? && (forall i | i in s.close.waiting :: Finished(s, i)) && Enabled(s.lock, id, Join(Write))
    case CloserLooks => s.close.Taking? && Enabled(s.lock, s.close.id, Look)
    case InnerCloseEnds(_) => s.close.Taking? && Enabled(s.lock, s.close.id, SpaceLock.Leave)
    case GraphMove(i, m) => i !in s.operations && s.close != Taking(i) && Enabled(s.lock, i, m)
  }

  /** A task that comes out of its look inside the lock starts its operation at once. */
  function Started(s: State, i: Id): State
    requires i in s.operations && i in s.lock.users
  {
    if s.lock.users[i].place.Inside?
    then s.(operations := s.operations[i := s.operations[i].(started := true, working := true)])
    else s
  }

  function Do(s: State, step: Step): State
    requires Consistent(s.lock) && CanStep(s, step)
  {
    match step
    case Call(i, write) =>
      s.(lock := Moved(s.lock, i, Join(Side(write))),
         operations := s.operations[i := Operation(write, false, false, false, false)],
         listed := s.listed + {i})
    case Proceed(i) => Started(s.(lock := Moved(s.lock, i, Look)), i)
    case CallerCancelled(i) =>
      if s.operations[i].started
      then s.(operations := s.operations[i := s.operations[i].(detached := true)])
      else s.(operations := s.operations[i := s.operations[i].(cancelled := true)])
    case Abandon(i) => s.(lock := Moved(s.lock, i, GiveUp))
    case WorkEnds(i) => s.(operations := s.operations[i := s.operations[i].(working := false)])
    case Release(i) => s.(lock := Moved(s.lock, i, SpaceLock.Leave))
    case Discard(i) => s.(listed := s.listed - {i})
    case AskClose =>
      s.(closing := true, close := if s.close.NotAsked? || s.close.Failed? then Asked else s.close)
    case Gather => s.(close := Draining(s.listed))
    case Drained(id) => s.(lock := Moved(s.lock, id, Join(Write)), close := Taking(id))
    case CloserLooks => s.(lock := Moved(s.lock, s.close.id, Look))
    case InnerCloseEnds(ok) =>
      s.(lock := Moved(s.lock, s.close.id, SpaceLock.Leave), close := if ok then Succeeded else Failed)
    case GraphMove(i, m) => s.(lock := Moved(s.lock, i, m))
  }

  // ---- the invariant -------------------------------------------------------

  /** Where an operation stands matches what its task has done. */
  predicate Coherent(op: Operation, u: User) {
    && u.want == Side(op.write)
    && (op.started <==> u.place.Inside? || (u.place.Gone? && !op.cancelled))
    && (op.working ==> u.place.Inside?)
    && (op.cancelled ==> !op.started)
  }

  /** The close's task wants the lock for itself, and has it or waits for it. */
  predicate CloserWaits(l: Lock, id: Id) {
    id in l.users && l.users[id].want.Write? && !l.users[id].place.Gone?
  }

  predicate Invariant(s: State) {
    && Consistent(s.lock) && NoLostWakeUp(s.lock)
    && (forall i :: i in s.operations ==> i in s.lock.users && Coherent(s.operations[i], s.lock.users[i]))
    && (!s.close.NotAsked? ==> s.closing)
    && s.listed <= s.operations.Keys && (s.close.Draining? ==> s.close.waiting <= s.operations.Keys)
    && (forall i :: i in s.operations && !Finished(s, i) ==> i in s.listed)
    && (s.close.Draining? ==> forall i :: i in s.operations && !Finished(s, i) ==> i in s.close.waiting)
    && (s.close.Taking? || s.close.Succeeded? || s.close.Failed? ==> AllFinished(s))
    && (s.close.Taking? ==> s.close.id !in s.operations && CloserWaits(s.lock, s.close.id))
  }

  /** A woken user stands where it stood. */
  lemma WokenIsCoherent(op: Operation, u: User)
    ensures Coherent(op, Woken(u)) <==> Coherent(op, u)
    ensures Woken(u).want == u.want && (Woken(u).place.Gone? <==> u.place.Gone?)
  {
  }

  /** Still there, on the same side, and gone only if it was gone. */
  predicate SameStanding(l: Lock, m: Lock, j: Id)
    requires j in l.users
  {
    j in m.users && m.users[j].want == l.users[j].want && (m.users[j].place.Gone? <==> l.users[j].place.Gone?)
  }

  /** A lock move by one user leaves every other operation as coherent as it was. */
  lemma OthersUndisturbed(s: State, i: Id, m: Move)
    requires Invariant(s) && Enabled(s.lock, i, m)
    ensures var l := Moved(s.lock, i, m);
      && Consistent(l) && NoLostWakeUp(l)
      && (forall j :: j in s.lock.users && j != i ==> SameStanding(s.lock, l, j))
      && (forall j :: j in s.operations && j != i ==> j in l.users && Coherent(s.operations[j], l.users[j]))
  {
    MoveKeeps(s.lock, i, m);
    forall j | j in s.lock.users && j != i
      ensures SameStanding(s.lock, Moved(s.lock, i, m), j)
      ensures j in s.operations ==> Coherent(s.operations[j], Moved(s.lock, i, m).users[j])
    {
      MoveOfAnother(s.lock, i, m, j);
      if j in s.operations { WokenIsCoherent(s.operations[j], s.lock.users[j]); }
      WokenIsCoherent(Operation(false, false, false, false, false), s.lock.users[j]);
    }
  }

  lemma CallKeeps(s: State, i: Id, write: bool)
    requires Invariant(s) && CanStep(s, Call(i, write))
    ensures Invariant(Do(s, Call(i, write)))
  {
    OthersUndisturbed(s, i, Join(Side(write)));
    MoveOfOneself(s.lock, i, Join(Side(write)));
  }

  lemma ProceedKeeps(s: State, i: Id)
    requires Invariant(s) && CanStep(s, Proceed(i))
    ensures Invariant(Do(s, Proceed(i)))
  {
    OthersUndisturbed(s, i, Look);
    MoveOfOneself(s.lock, i, Look);
  }

  lemma AbandonKeeps(s: State, i: Id)
    requires Invariant(s) && CanStep(s, Abandon(i))
    ensures Invariant(Do(s, Abandon(i)))
  {
    OthersUndisturbed(s, i, GiveUp);
    MoveOfOneself(s.lock, i, GiveUp);
  }

  lemma ReleaseKeeps(s: State, i: Id)
    requires Invariant(s) && CanStep(s, Release(i))
    ensures Invariant(Do(s, Release(i)))
  {
    OthersUndisturbed(s, i, SpaceLock.Leave);
    MoveOfOneself(s.lock, i, SpaceLock.Leave);
  }

  /** Steps that do not touch the lock. */
  lemma OwnStepKeeps(s: State, step: Step)
    requires Invariant(s) && CanStep(s, step) && (step.CallerCancelled? || step.WorkEnds?)
    ensures Invariant(Do(s, step))
  {
  }

  lemma ListStepKeeps(s: State, step: Step)
    requires Invariant(s) && CanStep(s, step) && (step.Discard? || step.AskClose? || step.Gather?)
    ensures Invariant(Do(s, step))
  {
  }

  /** What was gathered contains every operation that has not ended, so when all of it has ended,
      all admitted operations have. */
  lemma GatheredAll(s: State)
    requires Invariant(s) && s.close.Draining? && forall i :: i in s.close.waiting ==> Finished(s, i)
    ensures AllFinished(s)
  {
  }

  lemma DrainedKeeps(s: State, id: Id)
    requires Invariant(s) && CanStep(s, Drained(id))
    ensures Invariant(Do(s, Drained(id)))
  {
    GatheredAll(s);
    OthersUndisturbed(s, id, Join(Write));
    MoveOfOneself(s.lock, id, Join(Write));
  }

  lemma CloserLooksKeeps(s: State)
    requires Invariant(s) && CanStep(s, CloserLooks)
    ensures Invariant(Do(s, CloserLooks))
  {
    OthersUndisturbed(s, s.close.id, Look);
    MoveOfOneself(s.lock, s.close.id, Look);
  }

  lemma InnerCloseKeeps(s: State, ok: bool)
    requires Invariant(s) && CanStep(s, InnerCloseEnds(ok))
    ensures Invariant(Do(s, InnerCloseEnds(ok)))
  {
    OthersUndisturbed(s, s.close.id, SpaceLock.Leave);
    MoveOfOneself(s.lock, s.close.id, SpaceLock.Leave);
  }

  lemma GraphMoveKeeps(s: State, i: Id, m: Move)
    requires Invariant(s) && CanStep(s, GraphMove(i, m))
    ensures Invariant(Do(s, GraphMove(i, m)))
  {
    OthersUndisturbed(s, i, m);
  }

  lemma StepKeeps(s: State, step: Step)
    requires Invariant(s) && CanStep(s, step)
    ensures Invariant(Do(s, step))
  {
    match step
    case Call(i, write) => CallKeeps(s, i, write);
    case Proceed(i) => ProceedKeeps(s, i);
    case Abandon(i) => AbandonKeeps(s, i);
    case Release(i) => ReleaseKeeps(s, i);
    case Drained(id) => DrainedKeeps(s, id);
    case CloserLooks => CloserLooksKeeps(s);
    case InnerCloseEnds(ok) => InnerCloseKeeps(s, ok);
    case GraphMove(i, m) => GraphMoveKeeps(s, i, m);
    case CallerCancelled(_) => OwnStepKeeps(s, step);
    case WorkEnds(_) => OwnStepKeeps(s, step);
    case _ => ListStepKeeps(s, step);
  }

  // ---- runs ----------------------------------------------------------------

  /** `t` can be reached from `s` by these steps. */
  ghost predicate Reaches(s: State, steps: seq<Step>, t: State)
    decreases |steps|
  {
    if steps == [] then s == t
    else Consistent(s.lock) && CanStep(s, steps[0]) && Reaches(Do(s, steps[0]), steps[1..], t)
  }

  lemma {:induction false} RunKeeps(s: State, steps: seq<Step>, t: State)
    requires Invariant(s) && Reaches(s, steps, t)
    ensures Invariant(t)
    decreases |steps|
  {
    if steps != [] {
      StepKeeps(s, steps[0]);
      RunKeeps(Do(s, steps[0]), steps[1..], t);
    }
  }

  lemma Reachable(steps: seq<Step>, t: State)
    requires Reaches(INITIAL, steps, t)
    ensures Invariant(t)
  {
    assert InsideAs(map[], Read) == {} && InsideAs(map[], Write) == {} && QueueingWriters(map[]) == {};
    RunKeeps(INITIAL, steps, t);
  }

  /** The store never works on a write together with anything else, whichever callers were
      cancelled and when. */
  lemma StorageExclusion(steps: seq<Step>, t: State, i: Id, j: Id)
    requires Reaches(INITIAL, steps, t)
    requires i in t.operations && j in t.operations && i != j && t.operations[i].working && t.operations[j].working
    ensures !t.operations[i].write && !t.operations[j].write
  {
    Reachable(steps, t);
    assert Coherent(t.operations[i], t.lock.users[i]) && Coherent(t.operations[j], t.lock.users[j]);
    WriterIsAlone(t.lock, i, j);
  }

  /** What later steps do to one operation: its side never changes, it stays cancelled if it was,
      and a cancelled one never starts. */
  lemma {:induction false} OperationHistory(s: State, steps: seq<Step>, t: State, i: Id)
    requires Invariant(s) && Reaches(s, steps, t) && i in s.operations
    ensures i in t.operations && t.operations[i].write == s.operations[i].write
    ensures s.operations[i].cancelled ==> t.operations[i].cancelled && !t.operations[i].started && !t.operations[i].working
    ensures s.operations[i].started ==> t.operations[i].started && !t.operations[i].cancelled
    decreases |steps|
  {
    if steps != [] {
      StepKeeps(s, steps[0]);
      OneStepHistory(s, steps[0], i);
      OperationHistory(Do(s, steps[0]), steps[1..], t, i);
    } else {
      assert Coherent(s.operations[i], s.lock.users[i]);
    }
  }

  lemma OneStepHistory(s: State, step: Step, i: Id)
    requires Invariant(s) && CanStep(s, step) && i in s.operations
    ensures i in Do(s, step).operations
    ensures var a, b := s.operations[i], Do(s, step).operations[i];
      b.write == a.write && (a.cancelled ==> b.cancelled) && (a.started ==> b.started && !b.cancelled)
  {
    assert Coherent(s.operations[i], s.lock.users[i]);
  }

  /** A caller that gives up before its operation has started takes the operation with it: whatever
      happens later, the store never works on it. */
  lemma CancelledBeforeStartNeverRuns(before: seq<Step>, s: State, i: Id, after: seq<Step>, t: State)
    requires Reaches(INITIAL, before, s) && CanStep(s, CallerCancelled(i)) && !s.operations[i].started
    requires Consistent(s.lock) && Reaches(Do(s, CallerCancelled(i)), after, t)
    ensures i in t.operations && !t.operations[i].started && !t.operations[i].working
  {
    Reachable(before, s);
    StepKeeps(s, CallerCancelled(i));
    OperationHistory(Do(s, CallerCancelled(i)), after, t, i);
  }

  /** A caller that gives up later changes nothing about the operation: it holds the lock for as
      long as the store works on it. */
  lemma DetachedStillHoldsTheLock(steps: seq<Step>, t: State, i: Id)
    requires Reaches(INITIAL, steps, t) && i in t.operations && t.operations[i].working
    ensures i in t.lock.users && t.lock.users[i].place.Inside?
    ensures !CanStep(t, Release(i)) && !CanStep(t, Abandon(i))
    ensures Consistent(t.lock) && CanStep(t, CallerCancelled(i))
    ensures var later := Do(t, CallerCancelled(i));
      later.lock == t.lock && later.operations[i] == t.operations[i].(detached := true)
  {
    Reachable(steps, t);
    assert Coherent(t.operations[i], t.lock.users[i]);
  }

  /** The inner store is being closed, or has been. */
  predicate InnerCloseBegun(s: State) {
    s.close.Succeeded? || s.close.Failed?
    || (s.close.Taking? && s.close.id in s.lock.users && s.lock.users[s.close.id].place.Inside?)
  }

  /** By the time the inner store is closed every admitted operation has really ended: it either
      ran to its end or was given up before it started. While it is being closed nobody else, graph
      included, is inside the lock. */
  lemma ClosedOnlyWhenDrained(steps: seq<Step>, t: State)
    requires Reaches(INITIAL, steps, t) && InnerCloseBegun(t)
    ensures t.closing
    ensures forall i :: i in t.operations ==>
      Finished(t, i) && !t.operations[i].working && (t.operations[i].started <==> !t.operations[i].cancelled)
    ensures t.close.Taking? ==> forall j :: j in t.lock.users && j != t.close.id ==> !t.lock.users[j].place.Inside?
  {
    Reachable(steps, t);
    forall i | i in t.operations
      ensures Finished(t, i) && !t.operations[i].working && (t.operations[i].started <==> !t.operations[i].cancelled)
    {
      assert Coherent(t.operations[i], t.lock.users[i]);
    }
    if t.close.Taking? {
      forall j | j in t.lock.users && j != t.close.id ensures !t.lock.users[j].place.Inside? {
        if t.lock.users[j].place.Inside? { WriterIsAlone(t.lock, t.close.id, j); }
      }
    }
  }

  /** Once closing has been asked for nothing more is admitted, and a successful close is final. */
  lemma {:induction false} NoneAdmittedAfterClosing(s: State, steps: seq<Step>, t: State)
    requires Invariant(s) && s.closing && Reaches(s, steps, t)
    ensures t.closing && t.operations.Keys == s.operations.Keys
    ensures s.close.Succeeded? ==> t.close.Succeeded?
    decreases |steps|
  {
    if steps != [] {
      StepKeeps(s, steps[0]);
      NoneAdmittedAfterClosing(Do(s, steps[0]), steps[1..], t);
    }
  }

  predicate LeavesQueue(l: Lock, m: Lock, w: Id)
    requires w in l.users
  {
    && (l.users[w].place.Arriving? || l.users[w].place.Queueing?)
    && w in m.users && (m.users[w].place.Inside? || m.users[w].place.Gone?)
  }

  /** Nothing wedges: whenever some operation has not ended and nobody is inside the lock, a step
      of some task is possible that lets it in or takes it out of the queue. */
  lemma NoDeadlock(steps: seq<Step>, t: State, i: Id) returns (step: Step)
    requires Reaches(INITIAL, steps, t) && i in t.operations && !Finished(t, i)
    requires InsideAs(t.lock.users, Read) == {} && InsideAs(t.lock.users, Write) == {}
    ensures CanStep(t, step) && Consistent(t.lock)
    ensures exists w :: w in t.lock.users && LeavesQueue(t.lock, Do(t, step).lock, w)
  {
    Reachable(steps, t);
    var w := SomebodyGetsIn(t.lock, i);
    MoveOfOneself(t.lock, w, Look);
    if w in t.operations {
      if t.operations[w].cancelled {
        MoveOfOneself(t.lock, w, GiveUp);
        step := Abandon(w);
      } else {
        step := Proceed(w);
      }
    } else if t.close == Taking(w) {
      step := CloserLooks;
    } else {
      step := GraphMove(w, Look);
    }
    assert w in Do(t, step).lock.users;
  }

  // ---- a close can succeed -------------------------------------------------

  /** Who is still in the lock or in its queue, apart from the close. */
  function Others(s: State): set<Id> {
    OthersIn(s.lock, s.close)
  }

  function OthersIn(l: Lock, close: CloseTask): set<Id> {
    set i | i in l.users && !l.users[i].place.Gone? && close != Taking(i)
  }

  lemma {:induction false} RunThenRun(s: State, a: seq<Step>, t: State, b: seq<Step>, u: State)
    requires Reaches(s, a, t) && Reaches(t, b, u)
    ensures Reaches(s, a + b, u)
    decreases |a|
  {
    if a == [] {
      assert a + b == b;
    } else {
      RunThenRun(Do(s, a[0]), a[1..], t, b, u);
      assert (a + b)[1..] == a[1..] + b;
    }
  }

  lemma StepThenRun(s: State, step: Step, rest: seq<Step>, t: State)
    requires Invariant(s) && CanStep(s, step) && Reaches(Do(s, step), rest, t)
    ensures Reaches(s, [step] + rest, t)
  {
    assert ([step] + rest)[1..] == rest;
  }

  /** After this one user is gone and nobody else has moved in, out or away. */
  lemma OneIsGone(l: Lock, close: CloseTask, i: Id, m: Move)
    requires Consistent(l) && Enabled(l, i, m) && i in OthersIn(l, close) && (m.GiveUp? || m.Leave?)
    ensures OthersIn(Moved(l, i, m), close) == OthersIn(l, close) - {i}
  {
    MoveOfOneself(l, i, m);
    var n := Moved(l, i, m);
    forall j | j in l.users && j != i ensures j in OthersIn(n, close) <==> j in OthersIn(l, close) {
      MoveOfAnother(l, i, m, j);
    }
  }

  /** Whoever is in the lock or in its queue can go: work ends and is released, a wait is given up. */
  lemma OneCanGo(s: State, i: Id) returns (steps: seq<Step>, t: State)
    requires Invariant(s) && i in Others(s)
    ensures Reaches(s, steps, t) && Invariant(t) && t.close == s.close && Others(t) == Others(s) - {i}
  {
    if i !in s.operations {
      var m := if s.lock.users[i].place.Inside? then SpaceLock.Leave else GiveUp;
      OneIsGone(s.lock, s.close, i, m);
      t := GoneAfter(s, GraphMove(i, m));
      steps := [GraphMove(i, m)];
    } else {
      assert Coherent(s.operations[i], s.lock.users[i]);
      var inside := s.lock.users[i].place.Inside?;
      var first, last := if inside then WorkEnds(i) else CallerCancelled(i), if inside then Release(i) else Abandon(i);
      var ready := if inside then s.operations[i].working else !s.operations[i].cancelled;
      var mid := if ready then Do(s, first) else s;
      if ready { StepKeeps(s, first); }
      OneIsGone(mid.lock, mid.close, i, if inside then SpaceLock.Leave else GiveUp);
      t := GoneAfter(mid, last);
      steps := [last];
      if ready {
        StepThenRun(s, first, [last], t);
        steps := [first] + [last];
      }
    }
  }

  lemma GoneAfter(s: State, step: Step) returns (t: State)
    requires Invariant(s) && CanStep(s, step)
    ensures t == Do(s, step) && Invariant(t) && Reaches(s, [step], t)
  {
    StepKeeps(s, step);
    t := Do(s, step);
    assert Reaches(t, [], t);
    StepThenRun(s, step, [], t);
    assert [step] + [] == [step];
  }

  lemma {:induction false} FreshId(ids: set<Id>) returns (id: Id)
    ensures id !in ids && forall i :: i in ids ==> i < id
    decreases |ids|
  {
    if ids == {} {
      id := 0;
    } else {
      var i :| i in ids;
      var above := FreshId(ids - {i});
      id := if i < above then above else i + 1;
      assert forall j :: j in ids ==> j == i || j in ids - {i};
    }
  }

  function StepsLeft(close: CloseTask): nat {
    match close
    case NotAsked => 4
    case Failed => 4
    case Asked => 3
    case Draining(_) => 2
    case Taking(_) => 1
    case Succeeded => 0
  }

  /** With nobody else in the lock, the close takes its next step; a failed one is asked for again. */
  lemma CloseGoesOn(s: State) returns (steps: seq<Step>, t: State)
    requires Invariant(s) && Others(s) == {} && !s.close.Succeeded?
    ensures Reaches(s, steps, t) && Invariant(t) && Others(t) == {} && StepsLeft(t.close) < StepsLeft(s.close)
  {
    if s.close.Taking? {
      steps, t := LastSteps(s);
    } else {
      var step := if s.close.Asked? then Gather else AskClose;
      if s.close.Draining? {
        forall i | i in s.close.waiting ensures Finished(s, i) { assert i in s.operations && i !in Others(s); }
        var id := FreshId(s.lock.users.Keys);
        step := Drained(id);
        MoveOfOneself(s.lock, id, Join(Write));
        forall j | j in s.lock.users ensures Do(s, step).lock.users[j].place.Gone? {
          assert j !in Others(s);
          MoveOfAnother(s.lock, id, Join(Write), j);
        }
      }
      t := GoneAfter(s, step);
      steps := [step];
    }
  }

  /** The close gets the lock that nobody holds, and the inner store closes. */
  lemma LastSteps(s: State) returns (steps: seq<Step>, t: State)
    requires Invariant(s) && Others(s) == {} && s.close.Taking?
    ensures Reaches(s, steps, t) && Invariant(t) && Others(t) == {} && t.close.Succeeded?
  {
    var id := s.close.id;
    assert forall j :: j in s.lock.users && j != id ==> j !in Others(s);
    var mid := s;
    if !s.lock.users[id].place.Inside? {
      LookAlone(s, id);
      mid := GoneAfter(s, CloserLooks);
    }
    MoveOfOneself(mid.lock, id, SpaceLock.Leave);
    t := GoneAfter(mid, InnerCloseEnds(true));
    forall j | j in t.lock.users ensures t.lock.users[j].place.Gone? {
      if j != id { MoveOfAnother(mid.lock, id, SpaceLock.Leave, j); }
    }
    steps := [InnerCloseEnds(true)];
    if mid != s {
      StepThenRun(s, CloserLooks, steps, t);
      steps := [CloserLooks] + steps;
    }
  }

  lemma LookAlone(s: State, id: Id)
    requires Invariant(s) && s.close == Taking(id) && !s.lock.users[id].place.Inside?
    requires forall j :: j in s.lock.users && j != id ==> s.lock.users[j].place.Gone?
    ensures CanStep(s, CloserLooks)
    ensures Do(s, CloserLooks).lock.users[id].place.Inside? && Do(s, CloserLooks).close == Taking(id)
    ensures forall j :: j in Do(s, CloserLooks).lock.users && j != id ==> Do(s, CloserLooks).lock.users[j].place.Gone?
  {
    assert InsideAs(s.lock.users, Read) == {} && InsideAs(s.lock.users, Write) == {};
    assert MayEnter(s.lock, Write);
    EntersIff(s.lock, id);
    MoveOfOneself(s.lock, id, Look);
    forall j | j in s.lock.users && j != id ensures Do(s, CloserLooks).lock.users[j].place.Gone? {
      MoveOfAnother(s.lock, id, Look, j);
    }
  }

  lemma {:induction false} CloseCanSucceed(s: State) returns (steps: seq<Step>, t: State)
    requires Invariant(s)
    ensures Reaches(s, steps, t) && t.close.Succeeded?
    decreases |Others(s)|, StepsLeft(s.close)
  {
    if s.close.Succeeded? {
      steps, t := [], s;
    } else {
      var first, mid;
      if i :| i in Others(s) {
        first, mid := OneCanGo(s, i);
      } else {
        first, mid := CloseGoesOn(s);
      }
      var rest;
      rest, t := CloseCanSucceed(mid);
      RunThenRun(s, first, mid, rest, t);
      steps := first + rest;
    }
  }

  /** The close is never stuck: whatever has happened so far, a close that failed included, there is
      a way on to a close that succeeds. */
  lemma CloseIsNeverStuck(before: seq<Step>, s: State) returns (steps: seq<Step>, t: State)
    requires Reaches(INITIAL, before, s)
    ensures Reaches(s, steps, t) && t.close.Succeeded?
  {
    Reachable(before, s);
    steps, t := CloseCanSucceed(s);
  }

  // ---- the object ----------------------------------------------------------

  /** The fields and what each task does to them between two awaits. Every method is one step, so
      the theorems above hold of every interleaving of these calls. */
  class LockedBackend {
    var lock: Lock
    var operations: map<Id, Operation>
    var listed: set<Id>
    var closing: bool
    var closeTask: CloseTask

    function Now(): State
      reads this
    {
      State(lock, operations, listed, closing, closeTask)
    }

    constructor ()
      ensures Now() == INITIAL && Invariant(Now())
    {
      lock, operations, listed, closing, closeTask := UNUSED, map[], {}, false, NotAsked;
    }

    /** A call: refused once closing, else a task of its own is created for it. */
    method Serialized(i: Id, write: bool) returns (admitted: bool)
      requires Invariant(Now()) && i !in lock.users
      modifies this`lock, this`operations, this`listed
      ensures Invariant(Now()) && admitted == !closing
      ensures Now() == if admitted then Do(old(Now()), Call(i, write)) else old(Now())
      ensures admitted ==> i in listed && operations.Keys == old(operations.Keys) + {i}
      ensures admitted ==> i in lock.users && lock.users[i].want == Side(write)
    {
      if closing { return false; }
      StepKeeps(Now(), Call(i, write));
      MoveOfOneself(lock, i, Join(Side(write)));
      lock := Moved(lock, i, Join(Side(write)));
      operations := operations[i := Operation(write, false, false, false, false)];
      listed := listed + {i};
      return true;
    }

    /** An operation's own task looks at the lock; if it gets in, it starts the work at once. */
    method RunTask(i: Id) returns (started: bool)
      requires Invariant(Now()) && CanStep(Now(), Proceed(i))
      modifies this`lock, this`operations
      ensures Invariant(Now()) && Now() == Do(old(Now()), Proceed(i))
      ensures i in operations && started == operations[i].working
      ensures started <==> forall j :: j in old(lock).users ==> !InTheWay(Side(operations[i].write), old(lock).users[j])
    {
      StepKeeps(Now(), Proceed(i));
      EntersIff(lock, i);
      MoveOfOneself(lock, i, Look);
      LooksWhereItWants(Now(), i);
      lock := Moved(lock, i, Look);
      started := lock.users[i].place.Inside?;
      if started {
        operations := operations[i := operations[i].(started := true, working := true)];
      }
    }

    /** The caller's deadline: a started operation is left running, a waiting one is cancelled. */
    method CallerDeadline(i: Id)
      requires Invariant(Now()) && CanStep(Now(), CallerCancelled(i))
      modifies this`operations
      ensures Invariant(Now()) && Now() == Do(old(Now()), CallerCancelled(i))
      ensures operations == old(operations)[i := if old(operations)[i].started then old(operations)[i].(detached := true)
                                                 else old(operations)[i].(cancelled := true)]
    {
      StepKeeps(Now(), CallerCancelled(i));
      if operations[i].started {
        operations := operations[i := operations[i].(detached := true)];
      } else {
        operations := operations[i := operations[i].(cancelled := true)];
      }
    }

    /** The operation returns; its task is still inside the lock. */
    method EndWork(i: Id)
      requires Invariant(Now()) && CanStep(Now(), WorkEnds(i))
      modifies this`operations
      ensures Invariant(Now()) && Now() == Do(old(Now()), WorkEnds(i))
      ensures lock.users[i].place.Inside?
    {
      StepKeeps(Now(), WorkEnds(i));
      assert Coherent(operations[i], lock.users[i]);
      operations := operations[i := operations[i].(working := false)];
    }

    /** Then the task leaves the lock, and is finished. */
    method LeaveLock(i: Id)
      requires Invariant(Now()) && CanStep(Now(), Release(i))
      modifies this`lock
      ensures Invariant(Now()) && Now() == Do(old(Now()), Release(i))
      ensures Finished(Now(), i) && operations[i].started
    {
      StepKeeps(Now(), Release(i));
      MoveOfOneself(lock, i, SpaceLock.Leave);
      assert Coherent(operations[i], lock.users[i]);
      lock := Moved(lock, i, SpaceLock.Leave);
    }

    /** A cancelled task leaves the queue without having started. */
    method AbandonTask(i: Id)
      requires Invariant(Now()) && CanStep(Now(), Abandon(i))
      modifies this`lock
      ensures Invariant(Now()) && Now() == Do(old(Now()), Abandon(i))
      ensures Finished(Now(), i) && !operations[i].started
    {
      StepKeeps(Now(), Abandon(i));
      MoveOfOneself(lock, i, GiveUp);
      assert Coherent(operations[i], lock.users[i]);
      lock := Moved(lock, i, GiveUp);
    }

    /** The callback of a finished task. */
    method TaskDone(i: Id)
      requires Invariant(Now()) && Finished(Now(), i)
      modifies this`listed
      ensures Invariant(Now()) && listed == old(listed) - {i}
    {
      if i in listed { StepKeeps(Now(), Discard(i)); }
      listed := listed - {i};
      assert old(Now()).(listed := listed) == Now();
    }

    /** Refuse new calls, and start a close unless one is under way or has succeeded. */
    method Close()
      requires Invariant(Now())
      modifies this`closing, this`closeTask
      ensures Invariant(Now()) && Now() == Do(old(Now()), AskClose)
      ensures closing
      ensures closeTask == match old(closeTask) case NotAsked => Asked case Failed => Asked case _ => old(closeTask)
    {
      StepKeeps(Now(), AskClose);
      closing := true;
      if closeTask.NotAsked? || closeTask.Failed? { closeTask := Asked; }
    }

    /** The close's task: gather what is listed. It includes every operation that has not ended. */
    method StartDraining()
      requires Invariant(Now()) && closeTask.Asked?
      modifies this`closeTask
      ensures Invariant(Now()) && Now() == Do(old(Now()), Gather)
      ensures forall i :: i in operations && !Finished(Now(), i) ==> i in closeTask.waiting
    {
      StepKeeps(Now(), Gather);
      closeTask := Draining(listed);
    }

    /** When all that was gathered has ended, ask for the lock. */
    method EndDraining(id: Id)
      requires Invariant(Now()) && CanStep(Now(), Drained(id))
      modifies this`lock, this`closeTask
      ensures Invariant(Now()) && Now() == Do(old(Now()), Drained(id)) && AllFinished(Now())
    {
      StepKeeps(Now(), Drained(id));
      lock := Moved(lock, id, Join(Write));
      closeTask := Taking(id);
    }

    /** The close's task looks at the lock; once it is in, the inner store is being closed. */
    method LookForClose() returns (closingInner: bool)
      requires Invariant(Now()) && CanStep(Now(), CloserLooks)
      modifies this`lock
      ensures Invariant(Now()) && Now() == Do(old(Now()), CloserLooks)
      ensures closingInner == InnerCloseBegun(Now())
    {
      StepKeeps(Now(), CloserLooks);
      MoveOfOneself(lock, closeTask.id, Look);
      lock := Moved(lock, closeTask.id, Look);
      closingInner := lock.users[closeTask.id].place.Inside?;
    }

    /** The inner store has closed, or has failed to. */
    method InnerClosed(ok: bool)
      requires Invariant(Now()) && CanStep(Now(), InnerCloseEnds(ok))
      modifies this`lock, this`closeTask
      ensures Invariant(Now()) && Now() == Do(old(Now()), InnerCloseEnds(ok))
      ensures closeTask == if ok then Succeeded else Failed
    {
      StepKeeps(Now(), InnerCloseEnds(ok));
      lock := Moved(lock, closeTask.id, SpaceLock.Leave);
      closeTask := if ok then Succeeded else Failed;
    }
  }

  lemma LooksWhereItWants(s: State, i: Id)
    requires Invariant(s) && CanStep(s, Proceed(i))
    ensures Moved(s.lock, i, Look).users[i].place.Inside? ==> MayEnter(s.lock, Side(s.operations[i].write))
    ensures !Moved(s.lock, i, Look).users[i].place.Inside? ==> !s.operations[i].working
  {
    assert Coherent(s.operations[i], s.lock.users[i]);
    MoveOfOneself(s.lock, i, Look);
  }
}
