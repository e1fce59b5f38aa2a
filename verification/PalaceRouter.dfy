/** The router object of one process: what one resolve or one close does to its fields and to the
    lock files of the host, and that each is a run of the steps in `PalaceOwnership`. */
module PalaceRouter {
  import opened Text
  import opened Ranking
  import opened LockFiles
  import opened PalaceOwnership
  import SafeNames

  datatype Refusal =
    | RouterClosing
    | NotServed
    | PoolFull
    | DirectoryServed(server: Space)
    | SpaceOwned(holder: Holder)
    | PalaceHeld(holder: Holder)
    | NotPrepared

  // ---- what a resolve decides and does -------------------------------------

  /** Why a space that is not open cannot be opened, if there is a reason; in the order in which
      the checks are made. `prepared` says whether the work on disk succeeds. */
  function Objection(h: Host, p: Pid, r: Router, table: map<File, Holder>, s: Space, prepared: bool): Option<Refusal> {
    if |r.runtimes| >= h.maxSpaces(p) then Some(PoolFull)
    else BuildObjection(h, p, r.palaceDirs, table, s, prepared)
  }

  function BuildObjection(h: Host, p: Pid, palaceDirs: map<Dir, Space>, table: map<File, Holder>, s: Space, prepared: bool): Option<Refusal> {
    var d := h.dirOf(p, s);
    if d in palaceDirs && palaceDirs[d] != s then Some(DirectoryServed(palaceDirs[d]))
    else if SpaceFile(h, s) in table then Some(SpaceOwned(table[SpaceFile(h, s)]))
    else if PalaceFile(h, d) in table then Some(PalaceHeld(table[PalaceFile(h, d)]))
    else if !prepared then Some(NotPrepared)
    else None
  }

  function Opened(h: Host, p: Pid, r: Router, s: Space): Router {
    r.(runtimes := r.runtimes + {s}, backends := r.backends + {s}, graphs := r.graphs + {s},
       locks := r.locks[s := Claims(h, p, s)], palaceDirs := r.palaceDirs[h.dirOf(p, s) := s])
  }

  function WithClaims(h: Host, p: Pid, table: map<File, Holder>, s: Space): map<File, Holder> {
    table[SpaceFile(h, s) := Holder(p, s)][PalaceFile(h, h.dirOf(p, s)) := Holder(p, s)]
  }

  /** One process opens one space, or does not. */
  function Attempted(h: Host, w: World, p: Pid, s: Space, prepared: bool): World
    requires p in w.routers
  {
    var r := w.routers[p];
    if r.closing || s in r.runtimes || Objection(h, p, r, w.table, s, prepared).Some? then w
    else Put(w, p, Opened(h, p, r, s)).(table := WithClaims(h, p, w.table, s))
  }

  // ---- what a close does ---------------------------------------------------

  function Shut(r: Router, s: Space): Router {
    r.(runtimes := r.runtimes - {s}, backends := r.backends - {s}, graphs := r.graphs - {s}, locks := r.locks - {s},
       palaceDirs := Dropped(r.palaceDirs, s))
  }

  /** The table without what the process holds for the space. */
  function Freed(table: map<File, Holder>, p: Pid, s: Space): map<File, Holder> {
    map f | f in table && table[f] != Holder(p, s) :: table[f]
  }

  /** What closing the storage of one space comes to. */
  datatype Closes = Both | BackendFails | GraphFails

  /** Close the spaces in this order until one fails to close. */
  function Shutdown(w: World, p: Pid, order: seq<Space>, closes: Space -> Closes): World
    requires p in w.routers
    decreases |order|
  {
    var r := w.routers[p];
    if order == [] then Put(w, p, r.(close := Succeeded))
    else
      match closes(order[0])
      case BackendFails => Put(w, p, r.(close := Failed))
      case GraphFails => Put(w, p, HalfShut(r, order[0]).(close := Failed))
      case Both => Shutdown(Put(w, p, Shut(r, order[0])).(table := Freed(w.table, p, order[0])), p, order[1..], closes)
  }

  /** The backend closed and the graph not. */
  function HalfShut(r: Router, s: Space): Router {
    r.(backends := r.backends - {s})
  }

  /** From the first that fails. */
  function Retained(order: seq<Space>, closes: Space -> Closes): seq<Space> {
    if order == [] || !closes(order[0]).Both? then order else Retained(order[1..], closes)
  }

  // ---- both are runs of the protocol ---------------------------------------

  ghost predicate IsRun(h: Host, w: World, v: World) {
    exists steps: seq<Step> :: Reaches(h, w, steps, v)
  }

  /** The world in which process `p` has these books and the files have these holders. */
  function At(w: World, p: Pid, r: Router, t: map<File, Holder>): World {
    World(w.routers[p := r], t)
  }

  lemma PutAt(w: World, p: Pid, r: Router, t: map<File, Holder>, n: Router)
    ensures Put(At(w, p, r, t), p, n) == At(w, p, n, t)
    ensures p in w.routers ==> At(w, p, w.routers[p], w.table) == w
  {
    assert w.routers[p := r][p := n] == w.routers[p := n];
    if p in w.routers { assert w.routers[p := w.routers[p]] == w.routers; }
  }

  lemma OneStep(h: Host, w: World, step: Step, v: World)
    requires CanStep(h, w, step) && Do(h, w, step) == v
    ensures IsRun(h, w, v)
  {
    assert Reaches(h, v, [], v);
    assert [step][1..] == [];
    assert Reaches(h, w, [step], v);
  }

  lemma {:induction false} ReachesCompose(h: Host, a: World, first: seq<Step>, b: World, second: seq<Step>, c: World)
    requires Reaches(h, a, first, b) && Reaches(h, b, second, c)
    ensures Reaches(h, a, first + second, c)
    decreases |first|
  {
    if first == [] {
      assert first + second == second;
    } else {
      ReachesCompose(h, Do(h, a, first[0]), first[1..], b, second, c);
      assert (first + second)[1..] == first[1..] + second;
    }
  }

  lemma Compose(h: Host, a: World, b: World, c: World)
    requires IsRun(h, a, b) && IsRun(h, b, c)
    ensures IsRun(h, a, c)
  {
    var first: seq<Step> :| Reaches(h, a, first, b);
    var second: seq<Step> :| Reaches(h, b, second, c);
    ReachesCompose(h, a, first, b, second, c);
  }

  lemma EnterRun(h: Host, w: World, p: Pid, r: Router, t: map<File, Holder>, s: Space)
    requires r.phase.Idle? && !r.closing && s !in r.runtimes && |r.runtimes| < h.maxSpaces(p)
    ensures IsRun(h, At(w, p, r, t), At(w, p, r.(phase := Claiming(s)), t))
  {
    PutAt(w, p, r, t, r.(phase := Claiming(s)));
    OneStep(h, At(w, p, r, t), EnterBuild(p, s), At(w, p, r.(phase := Claiming(s)), t));
  }

  lemma ClaimRun(h: Host, w: World, p: Pid, r: Router, t: map<File, Holder>)
    requires r.phase.Claiming?
    ensures IsRun(h, At(w, p, r, t), At(w, p, Claimed(h, p, r), t))
  {
    PutAt(w, p, r, t, Claimed(h, p, r));
    OneStep(h, At(w, p, r, t), ClaimDirectory(p), At(w, p, Claimed(h, p, r), t));
  }

  /** The file the next `TakeFile` wants. */
  function NextFile(h: Host, p: Pid, phase: Phase): File
    requires phase.Locking?
  {
    if phase.taken == [] then SpaceFile(h, phase.space) else PalaceFile(h, h.dirOf(p, phase.space))
  }

  lemma TakeRefusedRun(h: Host, w: World, p: Pid, r: Router, t: map<File, Holder>)
    requires r.phase.Locking? && NextFile(h, p, r.phase) in t
    ensures IsRun(h, At(w, p, r, t), At(w, p, r.(phase := Releasing(r.phase.space, r.phase.taken, ToIdle)), t))
  {
    PutAt(w, p, r, t, r.(phase := Releasing(r.phase.space, r.phase.taken, ToIdle)));
    OneStep(h, At(w, p, r, t), TakeFile(p), At(w, p, r.(phase := Releasing(r.phase.space, r.phase.taken, ToIdle)), t));
  }

  lemma TakeFirstRun(h: Host, w: World, p: Pid, r: Router, t: map<File, Holder>)
    requires r.phase.Locking? && r.phase.taken == [] && SpaceFile(h, r.phase.space) !in t
    ensures var s := r.phase.space;
      IsRun(h, At(w, p, r, t), At(w, p, r.(phase := Locking(s, [SpaceFile(h, s)])), t[SpaceFile(h, s) := Holder(p, s)]))
  {
    var s := r.phase.space;
    var n := r.(phase := Locking(s, [SpaceFile(h, s)]));
    PutAt(w, p, r, t, n);
    OneStep(h, At(w, p, r, t), TakeFile(p), At(w, p, n, t[SpaceFile(h, s) := Holder(p, s)]));
  }

  lemma TakeSecondRun(h: Host, w: World, p: Pid, r: Router, t: map<File, Holder>)
    requires r.phase.Locking? && r.phase.taken == [SpaceFile(h, r.phase.space)]
    requires PalaceFile(h, h.dirOf(p, r.phase.space)) !in t
    ensures var s := r.phase.space;
      IsRun(h, At(w, p, r, t), At(w, p, r.(locks := r.locks[s := Claims(h, p, s)], phase := Preparing(s)),
                                  t[PalaceFile(h, h.dirOf(p, s)) := Holder(p, s)]))
  {
    var s := r.phase.space;
    var n := r.(locks := r.locks[s := Claims(h, p, s)], phase := Preparing(s));
    assert r.phase.taken + [PalaceFile(h, h.dirOf(p, s))] == Claims(h, p, s);
    PutAt(w, p, r, t, n);
    OneStep(h, At(w, p, r, t), TakeFile(p), At(w, p, n, t[PalaceFile(h, h.dirOf(p, s)) := Holder(p, s)]));
  }

  lemma PreparedRun(h: Host, w: World, p: Pid, r: Router, t: map<File, Holder>)
    requires r.phase.Preparing?
    ensures var s := r.phase.space;
      IsRun(h, At(w, p, r, t), At(w, p, Handled(r, s).(runtimes := r.runtimes + {s}, phase := Idle), t))
  {
    var s := r.phase.space;
    var built := Handled(r, s).(phase := Built(s));
    var n := built.(runtimes := r.runtimes + {s}, phase := Idle);
    PutAt(w, p, r, t, built);
    PutAt(w, p, built, t, n);
    OneStep(h, At(w, p, r, t), Prepared(p, true), At(w, p, built, t));
    OneStep(h, At(w, p, built, t), Publish(p), At(w, p, n, t));
    Compose(h, At(w, p, r, t), At(w, p, built, t), At(w, p, n, t));
  }

  lemma UnpreparedRun(h: Host, w: World, p: Pid, r: Router, t: map<File, Holder>)
    requires r.phase.Preparing?
    ensures IsRun(h, At(w, p, r, t), At(w, p, BeginRelease(r, r.phase.space, ToIdle), t))
  {
    PutAt(w, p, r, t, BeginRelease(r, r.phase.space, ToIdle));
    OneStep(h, At(w, p, r, t), Prepared(p, false), At(w, p, BeginRelease(r, r.phase.space, ToIdle), t));
  }

  /** All files given back, one step each, and the release ended. */
  lemma {:induction false} ReleaseRun(h: Host, w: World, p: Pid, r: Router, t: map<File, Holder>)
    requires r.phase.Releasing?
    ensures IsRun(h, At(w, p, r, t), At(w, p, Ended(r), t - ToSet(r.phase.rest)))
    decreases |r.phase.rest|
  {
    var rest := r.phase.rest;
    if rest == [] {
      PutAt(w, p, r, t, Ended(r));
      assert t - ToSet(rest) == t;
      OneStep(h, At(w, p, r, t), EndRelease(p), At(w, p, Ended(r), t));
    } else {
      var n := r.(phase := r.phase.(rest := rest[1..]));
      var t1 := t - {rest[0]};
      PutAt(w, p, r, t, n);
      OneStep(h, At(w, p, r, t), ReleaseFile(p), At(w, p, n, t1));
      ReleaseRun(h, w, p, n, t1);
      assert rest == [rest[0]] + rest[1..];
      assert t1 - ToSet(rest[1..]) == t - ToSet(rest);
      Compose(h, At(w, p, r, t), At(w, p, n, t1), At(w, p, Ended(n), t - ToSet(rest)));
    }
  }

  /** A router at rest whose books do not mention the space. */
  ghost predicate Absent(r: Router, s: Space) {
    && r.phase.Idle? && !r.closing
    && s !in r.runtimes && s !in r.locks && forall d :: d in r.palaceDirs ==> r.palaceDirs[d] != s
  }

  function HavingClaimed(h: Host, p: Pid, r: Router, s: Space): Router {
    r.(palaceDirs := r.palaceDirs[h.dirOf(p, s) := s], phase := Locking(s, []))
  }

  lemma ReachLocking(h: Host, w: World, p: Pid, r: Router, t: map<File, Holder>, s: Space)
    requires Absent(r, s) && |r.runtimes| < h.maxSpaces(p) && h.dirOf(p, s) !in r.palaceDirs
    ensures IsRun(h, At(w, p, r, t), At(w, p, HavingClaimed(h, p, r, s), t))
  {
    EnterRun(h, w, p, r, t, s);
    ClaimRun(h, w, p, r.(phase := Claiming(s)), t);
    assert Claimed(h, p, r.(phase := Claiming(s))) == HavingClaimed(h, p, r, s);
    Compose(h, At(w, p, r, t), At(w, p, r.(phase := Claiming(s)), t), At(w, p, HavingClaimed(h, p, r, s), t));
  }

  function HavingLocked(h: Host, p: Pid, r: Router, s: Space): Router {
    HavingClaimed(h, p, r, s).(locks := r.locks[s := Claims(h, p, s)], phase := Preparing(s))
  }

  lemma ReachPreparing(h: Host, w: World, p: Pid, r: Router, t: map<File, Holder>, s: Space)
    requires Absent(r, s) && |r.runtimes| < h.maxSpaces(p) && h.dirOf(p, s) !in r.palaceDirs
    requires SpaceFile(h, s) !in t && PalaceFile(h, h.dirOf(p, s)) !in t
    ensures IsRun(h, At(w, p, r, t), At(w, p, HavingLocked(h, p, r, s), WithClaims(h, p, t, s)))
  {
    var r2 := HavingClaimed(h, p, r, s);
    var r3 := r2.(phase := Locking(s, [SpaceFile(h, s)]));
    var t3 := t[SpaceFile(h, s) := Holder(p, s)];
    ReachLocking(h, w, p, r, t, s);
    TakeFirstRun(h, w, p, r2, t);
    Compose(h, At(w, p, r, t), At(w, p, r2, t), At(w, p, r3, t3));
    TakeSecondRun(h, w, p, r3, t3);
    Compose(h, At(w, p, r, t), At(w, p, r3, t3), At(w, p, HavingLocked(h, p, r, s), WithClaims(h, p, t, s)));
  }

  /** Opening a space that nothing forbids is a run of the protocol. */
  lemma OpeningIsARun(h: Host, w: World, p: Pid, r: Router, t: map<File, Holder>, s: Space)
    requires Absent(r, s) && Objection(h, p, r, t, s, true).None?
    ensures IsRun(h, At(w, p, r, t), At(w, p, Opened(h, p, r, s), WithClaims(h, p, t, s)))
  {
    ReachPreparing(h, w, p, r, t, s);
    PreparedRun(h, w, p, HavingLocked(h, p, r, s), WithClaims(h, p, t, s));
    Compose(h, At(w, p, r, t), At(w, p, HavingLocked(h, p, r, s), WithClaims(h, p, t, s)),
            At(w, p, Opened(h, p, r, s), WithClaims(h, p, t, s)));
  }

  /** What a refused build holds while it gives its claims back. */
  function GivingBack(h: Host, p: Pid, r: Router, s: Space, rest: seq<File>): Router {
    r.(palaceDirs := r.palaceDirs[h.dirOf(p, s) := s], phase := Releasing(s, rest, ToIdle))
  }

  lemma GivenBackRun(h: Host, w: World, p: Pid, r: Router, t: map<File, Holder>, s: Space, rest: seq<File>, held: map<File, Holder>)
    requires Absent(r, s) && h.dirOf(p, s) !in r.palaceDirs && held - ToSet(rest) == t
    ensures IsRun(h, At(w, p, GivingBack(h, p, r, s, rest), held), At(w, p, r, t))
  {
    var x := GivingBack(h, p, r, s, rest);
    assert Dropped(x.palaceDirs, s) == r.palaceDirs;
    assert Ended(x) == r;
    ReleaseRun(h, w, p, x, held);
  }

  /** A build that is refused, at whatever check, ends in the world it started in. */
  lemma RefusedBuildLeavesNothing(h: Host, w: World, p: Pid, r: Router, t: map<File, Holder>, s: Space, prepared: bool)
    requires Absent(r, s) && Objection(h, p, r, t, s, prepared).Some? && !Objection(h, p, r, t, s, prepared).value.PoolFull?
    ensures IsRun(h, At(w, p, r.(phase := Claiming(s)), t), At(w, p, r, t))
  {
    var start := At(w, p, r.(phase := Claiming(s)), t);
    var d := h.dirOf(p, s);
    ClaimRun(h, w, p, r.(phase := Claiming(s)), t);
    if d in r.palaceDirs {
      var x := r.(phase := Releasing(s, [], ToIdle));
      assert BeginRelease(r.(phase := Claiming(s)), s, ToIdle) == x by { assert r.locks - {s} == r.locks; }
      assert Dropped(r.palaceDirs, s) == r.palaceDirs;
      assert Ended(x) == r && t - ToSet([]) == t;
      ReleaseRun(h, w, p, x, t);
      Compose(h, start, At(w, p, x, t), At(w, p, r, t));
    } else {
      assert Claimed(h, p, r.(phase := Claiming(s))) == HavingClaimed(h, p, r, s);
      RefusedAfterClaim(h, w, p, r, t, s, prepared);
      Compose(h, start, At(w, p, HavingClaimed(h, p, r, s), t), At(w, p, r, t));
    }
  }

  lemma RefusedAfterClaim(h: Host, w: World, p: Pid, r: Router, t: map<File, Holder>, s: Space, prepared: bool)
    requires Absent(r, s) && h.dirOf(p, s) !in r.palaceDirs
    requires SpaceFile(h, s) in t || PalaceFile(h, h.dirOf(p, s)) in t || !prepared
    ensures IsRun(h, At(w, p, HavingClaimed(h, p, r, s), t), At(w, p, r, t))
  {
    var start := At(w, p, HavingClaimed(h, p, r, s), t);
    if SpaceFile(h, s) in t {
      TakeRefusedRun(h, w, p, HavingClaimed(h, p, r, s), t);
      assert t - ToSet([]) == t;
      GivenBackRun(h, w, p, r, t, s, [], t);
      Compose(h, start, At(w, p, GivingBack(h, p, r, s, []), t), At(w, p, r, t));
    } else {
      var held := t[SpaceFile(h, s) := Holder(p, s)];
      var locking := HavingClaimed(h, p, r, s).(phase := Locking(s, [SpaceFile(h, s)]));
      TakeFirstRun(h, w, p, HavingClaimed(h, p, r, s), t);
      RefusedAfterFirst(h, w, p, r, t, s, prepared);
      Compose(h, start, At(w, p, locking, held), At(w, p, r, t));
    }
  }

  lemma RefusedAfterFirst(h: Host, w: World, p: Pid, r: Router, t: map<File, Holder>, s: Space, prepared: bool)
    requires Absent(r, s) && h.dirOf(p, s) !in r.palaceDirs && SpaceFile(h, s) !in t
    requires PalaceFile(h, h.dirOf(p, s)) in t || !prepared
    ensures IsRun(h, At(w, p, HavingClaimed(h, p, r, s).(phase := Locking(s, [SpaceFile(h, s)])), t[SpaceFile(h, s) := Holder(p, s)]),
                  At(w, p, r, t))
  {
    var held := t[SpaceFile(h, s) := Holder(p, s)];
    var locking := HavingClaimed(h, p, r, s).(phase := Locking(s, [SpaceFile(h, s)]));
    if PalaceFile(h, h.dirOf(p, s)) in t {
      TakeRefusedRun(h, w, p, locking, held);
      assert held - ToSet([SpaceFile(h, s)]) == t;
      GivenBackRun(h, w, p, r, t, s, [SpaceFile(h, s)], held);
      Compose(h, At(w, p, locking, held), At(w, p, GivingBack(h, p, r, s, [SpaceFile(h, s)]), held), At(w, p, r, t));
    } else {
      var both := WithClaims(h, p, t, s);
      TakeSecondRun(h, w, p, locking, held);
      UnpreparedRun(h, w, p, HavingLocked(h, p, r, s), both);
      assert r.locks[s := Claims(h, p, s)] - {s} == r.locks;
      assert BeginRelease(HavingLocked(h, p, r, s), s, ToIdle) == GivingBack(h, p, r, s, Claims(h, p, s));
      assert both - ToSet(Claims(h, p, s)) == t;
      GivenBackRun(h, w, p, r, t, s, Claims(h, p, s), both);
      Compose(h, At(w, p, locking, held), At(w, p, HavingLocked(h, p, r, s), both), At(w, p, GivingBack(h, p, r, s, Claims(h, p, s)), both));
      Compose(h, At(w, p, locking, held), At(w, p, GivingBack(h, p, r, s, Claims(h, p, s)), both), At(w, p, r, t));
    }
  }

  /** Closing one space of the list. */
  lemma ShutRun(h: Host, w: World, p: Pid, s: Space)
    requires Invariant(h, w) && p in w.routers && w.routers[p].phase.Closing? && s in w.routers[p].phase.todo
    ensures var r := w.routers[p];
      IsRun(h, w, At(w, p, Shut(r, s).(phase := Closing(r.phase.todo - {s})), Freed(w.table, p, s)))
  {
    var r, t := w.routers[p], w.table;
    var half := HalfShut(r, s).(phase := ClosingGraph(s, r.phase.todo));
    var x := BeginRelease(half.(graphs := r.graphs - {s}), s, ToClosing(r.phase.todo));
    HalfShutRun(h, w, p, s);
    PutAt(w, p, half, t, x);
    OneStep(h, At(w, p, half, t), CloseGraph(p, true), At(w, p, x, t));
    Compose(h, w, At(w, p, half, t), At(w, p, x, t));
    ReleaseRun(h, w, p, x, t);
    HeldByClosing(h, w, p, s);
    Compose(h, w, At(w, p, x, t), At(w, p, Ended(x), t - ToSet(x.phase.rest)));
  }

  lemma HalfShutRun(h: Host, w: World, p: Pid, s: Space)
    requires p in w.routers && w.routers[p].phase.Closing? && s in w.routers[p].phase.todo
    ensures var r := w.routers[p]; IsRun(h, w, At(w, p, HalfShut(r, s).(phase := ClosingGraph(s, r.phase.todo)), w.table))
  {
    var r := w.routers[p];
    var half := HalfShut(r, s).(phase := ClosingGraph(s, r.phase.todo));
    PutAt(w, p, r, w.table, half);
    OneStep(h, w, CloseBackend(p, s, true), At(w, p, half, w.table));
  }

  /** A close that fails at the first space of the list. */
  lemma FailingRun(h: Host, w: World, p: Pid, s: Space, backendFails: bool)
    requires p in w.routers && w.routers[p].phase.Closing? && s in w.routers[p].phase.todo
    ensures var r := w.routers[p];
      IsRun(h, w, At(w, p, (if backendFails then r else HalfShut(r, s)).(phase := Idle, close := Failed), w.table))
  {
    var r, t := w.routers[p], w.table;
    if backendFails {
      PutAt(w, p, r, t, r.(phase := Idle, close := Failed));
      OneStep(h, w, CloseBackend(p, s, false), At(w, p, r.(phase := Idle, close := Failed), t));
    } else {
      var half := HalfShut(r, s).(phase := ClosingGraph(s, r.phase.todo));
      var n := HalfShut(r, s).(phase := Idle, close := Failed);
      HalfShutRun(h, w, p, s);
      PutAt(w, p, half, t, n);
      OneStep(h, At(w, p, half, t), CloseGraph(p, false), At(w, p, n, t));
      Compose(h, w, At(w, p, half, t), At(w, p, n, t));
    }
  }

  lemma HeldByClosing(h: Host, w: World, p: Pid, s: Space)
    requires Invariant(h, w) && p in w.routers && w.routers[p].phase.Closing? && s in w.routers[p].phase.todo
    ensures s in w.routers[p].locks && Freed(w.table, p, s) == w.table - ToSet(w.routers[p].locks[s])
  {
    var r := w.routers[p];
    assert RouterOk(h, p, r);
    assert HoldsBoth(r, s);
    forall f ensures f in r.locks[s] <==> f in w.table && w.table[f] == Holder(p, s) {
      HeldIffInTable(w, p, f, s);
    }
  }

  lemma DistinctRest(order: seq<Space>)
    requires NoDuplicates(order) && order != []
    ensures NoDuplicates(order[1..]) && ToSet(order[1..]) == ToSet(order) - {order[0]}
  {
    assert order == [order[0]] + order[1..];
    forall s | s in order[1..] ensures s != order[0] {
      var i :| 0 <= i < |order[1..]| && order[1..][i] == s;
      assert order[i + 1] == s;
    }
  }

  lemma IsRunKeeps(h: Host, w: World, v: World)
    requires Invariant(h, w) && IsRun(h, w, v)
    ensures Invariant(h, v)
  {
    var steps: seq<Step> :| Reaches(h, w, steps, v);
    RunKeeps(h, w, steps, v);
  }

  /** The rest of a close is a run of the protocol. */
  lemma {:induction false} ClosingRun(h: Host, w: World, p: Pid, order: seq<Space>, closes: Space -> Closes)
    requires Invariant(h, w) && p in w.routers && NoDuplicates(order)
    requires w.routers[p].phase == Closing(ToSet(order))
    ensures IsRun(h, w, Shutdown(Put(w, p, w.routers[p].(phase := Idle)), p, order, closes))
    decreases |order|
  {
    var r, t := w.routers[p], w.table;
    var rest := Put(w, p, r.(phase := Idle));
    PutAt(w, p, r, t, r.(phase := Idle));
    if order == [] {
      var n := r.(phase := Idle, close := Succeeded);
      PutAt(w, p, r.(phase := Idle), t, n);
      PutAt(w, p, r, t, n);
      OneStep(h, w, EndClose(p), At(w, p, n, t));
    } else if !closes(order[0]).Both? {
      var fails := closes(order[0]).BackendFails?;
      var n := (if fails then r else HalfShut(r, order[0])).(phase := Idle, close := Failed);
      FailingRun(h, w, p, order[0], fails);
      PutAt(w, p, r.(phase := Idle), t, n);
    } else {
      var s := order[0];
      var t1 := Freed(t, p, s);
      var n := Shut(r, s).(phase := Closing(r.phase.todo - {s}));
      var w1 := At(w, p, n, t1);
      ShutRun(h, w, p, s);
      IsRunKeeps(h, w, w1);
      DistinctRest(order);
      ClosingRun(h, w1, p, order[1..], closes);
      PutAt(w, p, n, t1, n.(phase := Idle));
      PutAt(w, p, r.(phase := Idle), t, Shut(r.(phase := Idle), s));
      assert Shut(r.(phase := Idle), s) == n.(phase := Idle);
      assert Put(rest, p, Shut(r.(phase := Idle), s)).(table := t1) == Put(w1, p, n.(phase := Idle));
      Compose(h, w, w1, Shutdown(rest, p, order, closes));
    }
  }

  /** A close is asked for and run to its end. */
  lemma CloseIsARun(h: Host, w: World, p: Pid, order: seq<Space>, closes: Space -> Closes)
    requires Invariant(h, w) && p in w.routers && w.routers[p].phase.Idle?
    requires NoDuplicates(order) && ToSet(order) == w.routers[p].runtimes
    requires w.routers[p].close.NotAsked? || w.routers[p].close.Failed?
    ensures IsRun(h, w, Shutdown(Put(w, p, w.routers[p].(closing := true, close := Asked)), p, order, closes))
  {
    var r, t := w.routers[p], w.table;
    var asked := r.(closing := true, close := Asked);
    var closing := asked.(phase := Closing(r.runtimes));
    var w1, w2 := At(w, p, asked, t), At(w, p, closing, t);
    PutAt(w, p, r, t, asked);
    PutAt(w, p, asked, t, closing);
    PutAt(w, p, closing, t, asked);
    OneStep(h, w, AskClose(p), w1);
    OneStep(h, w1, BeginClose(p), w2);
    Compose(h, w, w1, w2);
    IsRunKeeps(h, w, w2);
    ClosingRun(h, w2, p, order, closes);
    assert closing.(phase := Idle) == asked;
    Compose(h, w, w2, Shutdown(w1, p, order, closes));
  }

  /** What is left of the pool: nothing after a close that succeeds; otherwise the space that did
      not close and those after it, which are still open and still owned. */
  lemma {:induction false} CloseOutcome(w: World, p: Pid, order: seq<Space>, closes: Space -> Closes)
    requires p in w.routers && NoDuplicates(order) && ToSet(order) == w.routers[p].runtimes
    ensures var v, left := Shutdown(w, p, order, closes), Retained(order, closes);
      && p in v.routers && v.routers[p].runtimes == ToSet(left)
      && (v.routers[p].close == if left == [] then Succeeded else Failed)
    ensures |Retained(order, closes)| <= |order| && Retained(order, closes) == order[|order| - |Retained(order, closes)|..]
    ensures forall i :: 0 <= i < |order| - |Retained(order, closes)| ==> closes(order[i]).Both?
    ensures Retained(order, closes) != [] ==> !closes(Retained(order, closes)[0]).Both?
    decreases |order|
  {
    if order != [] && closes(order[0]).Both? {
      DistinctRest(order);
      var w1 := Put(w, p, Shut(w.routers[p], order[0])).(table := Freed(w.table, p, order[0]));
      CloseOutcome(w1, p, order[1..], closes);
    }
  }

  // ---- the object ----------------------------------------------------------

  /** The lock files of the host. */
  class LockTable {
    var held: map<File, Holder>

    constructor ()
      ensures held == map[]
    {
      held := map[];
    }
  }

  /** The table holds for a process what its books say. */
  ghost predicate OwnEntries(r: Router, p: Pid, held: map<File, Holder>) {
    forall f, s :: Holds(r, f, s) <==> f in held && held[f] == Holder(p, s)
  }

  lemma AbsentFromBooks(h: Host, p: Pid, r: Router, s: Space)
    requires RouterOk(h, p, r) && r.phase.Idle? && !r.closing && s !in r.runtimes
    ensures Absent(r, s)
  {
    assert s in r.locks <==> HoldsBoth(r, s);
    forall d | d in r.palaceDirs ensures r.palaceDirs[d] != s {
      assert MayOwnDirectory(r, r.palaceDirs[d]);
    }
  }

  /** Opening keeps the books: they go through the phases of a build. */
  lemma OpenedKeeps(h: Host, p: Pid, r: Router, t: map<File, Holder>, s: Space)
    requires RouterOk(h, p, r) && Absent(r, s) && Objection(h, p, r, t, s, true).None?
    ensures RouterOk(h, p, Opened(h, p, r, s))
  {
    EnterKeeps(h, p, r, s);
    var claiming := r.(phase := Claiming(s));
    ClaimGrantedKeeps(h, p, claiming);
    var locking := HavingClaimed(h, p, r, s);
    FirstTakenKeeps(h, p, locking);
    SecondTakenKeeps(h, p, locking.(phase := Locking(s, [SpaceFile(h, s)])));
    assert [SpaceFile(h, s)] + [PalaceFile(h, h.dirOf(p, s))] == Claims(h, p, s);
    PreparedKeeps(h, p, HavingLocked(h, p, r, s));
    PublishKeeps(h, p, Handled(HavingLocked(h, p, r, s), s).(phase := Built(s)));
  }

  lemma OpenedEntries(h: Host, p: Pid, r: Router, t: map<File, Holder>, s: Space)
    requires OwnEntries(r, p, t) && Absent(r, s)
    requires SpaceFile(h, s) !in t && PalaceFile(h, h.dirOf(p, s)) !in t
    ensures OwnEntries(Opened(h, p, r, s), p, WithClaims(h, p, t, s))
  {
    var n := Opened(h, p, r, s);
    assert n.locks[s] == Claims(h, p, s) == [SpaceFile(h, s), PalaceFile(h, h.dirOf(p, s))];
    forall f, u ensures Holds(n, f, u) <==> f in WithClaims(h, p, t, s) && WithClaims(h, p, t, s)[f] == Holder(p, u) {
      assert Holds(r, f, u) <==> f in t && t[f] == Holder(p, u);
    }
  }

  /** A close passes through the phases of a release. */
  lemma ShutKeeps(h: Host, p: Pid, r: Router, s: Space)
    requires RouterOk(h, p, r) && r.phase.Idle? && r.closing && r.close.Asked? && s in r.runtimes
    ensures RouterOk(h, p, Shut(r, s))
  {
    BeginCloseKeeps(h, p, r);
    var closing := r.(phase := Closing(r.runtimes));
    BackendClosedKeeps(h, p, closing, s);
    var half := HalfShut(closing, s).(phase := ClosingGraph(s, r.runtimes));
    GraphClosedKeeps(h, p, half);
    var x := BeginRelease(half.(graphs := r.graphs - {s}), s, ToClosing(r.runtimes));
    EmptiedKeeps(h, p, x);
    var emptied := x.(phase := Releasing(s, [], ToClosing(r.runtimes)));
    EndReleaseKeeps(h, p, emptied);
    CloseFailsKeeps(h, p, Ended(emptied));
    AskCloseKeeps(h, p, Ended(emptied).(phase := Idle, close := Failed));
  }

  lemma {:induction false} EmptiedKeeps(h: Host, p: Pid, r: Router)
    requires RouterOk(h, p, r) && r.phase.Releasing?
    ensures RouterOk(h, p, r.(phase := r.phase.(rest := [])))
    decreases |r.phase.rest|
  {
    if r.phase.rest != [] {
      FileReleasedKeeps(h, p, r);
      EmptiedKeeps(h, p, r.(phase := r.phase.(rest := r.phase.rest[1..])));
    }
  }

  lemma ShutEntries(h: Host, p: Pid, r: Router, t: map<File, Holder>, s: Space)
    requires OwnEntries(r, p, t) && r.phase.Idle? && s in r.locks
    ensures t - ToSet(r.locks[s]) == Freed(t, p, s)
    ensures OwnEntries(Shut(r, s), p, Freed(t, p, s))
  {
    forall f ensures f in r.locks[s] <==> f in t && t[f] == Holder(p, s) {
      assert Holds(r, f, s) <==> f in t && t[f] == Holder(p, s);
    }
    forall f, u ensures Holds(Shut(r, s), f, u) <==> f in Freed(t, p, s) && Freed(t, p, s)[f] == Holder(p, u) {
      assert Holds(r, f, u) <==> f in t && t[f] == Holder(p, u);
    }
  }

  lemma AttemptedAlone(h: Host, p: Pid, r: Router, t: map<File, Holder>, s: Space, prepared: bool)
    requires Absent(r, s) && Objection(h, p, r, t, s, prepared).None?
    ensures Attempted(h, World(map[p := r], t), p, s, prepared) == World(map[p := Opened(h, p, r, s)], WithClaims(h, p, t, s))
  {
    assert map[p := r][p := Opened(h, p, r, s)] == map[p := Opened(h, p, r, s)];
  }

  lemma ShutdownAlone(p: Pid, r: Router, t: map<File, Holder>, order: seq<Space>, closes: Space -> Closes)
    ensures Shutdown(World(map[p := r], t), p, order, closes) ==
      if order == [] then World(map[p := r.(close := Succeeded)], t)
      else if closes(order[0]).BackendFails? then World(map[p := r.(close := Failed)], t)
      else if closes(order[0]).GraphFails? then World(map[p := HalfShut(r, order[0]).(close := Failed)], t)
      else Shutdown(World(map[p := Shut(r, order[0])], Freed(t, p, order[0])), p, order[1..], closes)
  {
    assert forall n: Router :: Put(World(map[p := r], t), p, n) == World(map[p := n], t) by {
      forall n: Router ensures map[p := r][p := n] == map[p := n] {}
    }
  }

  lemma OpenedIsValid(h: Host, p: Pid, r: Router, t: map<File, Holder>, s: Space, prepared: bool)
    requires RouterOk(h, p, r) && OwnEntries(r, p, t) && Absent(r, s) && Objection(h, p, r, t, s, prepared).None?
    ensures RouterOk(h, p, Opened(h, p, r, s)) && OwnEntries(Opened(h, p, r, s), p, WithClaims(h, p, t, s))
    ensures Attempted(h, World(map[p := r], t), p, s, prepared) == World(map[p := Opened(h, p, r, s)], WithClaims(h, p, t, s))
  {
    AttemptedAlone(h, p, r, t, s, prepared);
    OpenedKeeps(h, p, r, t, s);
    OpenedEntries(h, p, r, t, s);
  }

  class LocalPalaceRouter {
    const host: Host
    const pid: Pid
    const allowed: Option<set<Space>>
    const table: LockTable
    var runtimes: seq<Space>
    var locks: map<Space, seq<File>>
    var palaceDirs: map<Dir, Space>
    var closing: bool
    var close: CloseTask
    var backends: set<Space>
    var graphs: set<Space>

    function Books(): Router
      reads this
    {
      Router(ToSet(runtimes), locks, palaceDirs, closing, close, backends, graphs, Idle)
    }

    /** This process alone and the lock files. */
    function Alone(): World
      reads this, table
    {
      World(map[pid := Books()], table.held)
    }

    ghost predicate Valid()
      reads this, table
    {
      && RouterOk(host, pid, Books())
      && NoDuplicates(runtimes)
      && OwnEntries(Books(), pid, table.held)
    }

    constructor (host: Host, pid: Pid, allowed: Option<set<Space>>, table: LockTable)
      requires forall f :: f in table.held ==> table.held[f].pid != pid
      ensures this.host == host && this.pid == pid && this.allowed == allowed && this.table == table
      ensures Valid() && runtimes == [] && Books() == NEW_ROUTER
    {
      this.host, this.pid, this.allowed, this.table := host, pid, allowed, table;
      runtimes, locks, palaceDirs, closing, close, backends, graphs := [], map[], map[], false, NotAsked, {}, {};
    }

    predicate Serves(s: Space) {
      allowed.None? || s in allowed.value
    }

    /** Succeeds exactly when the space has its directory afterwards, and never takes a directory
        from the space that has it. */
    method ClaimPalaceDirectory(s: Space) returns (r: Option<Refusal>)
      modifies this`palaceDirs
      ensures forall d :: d in old(palaceDirs) ==> d in palaceDirs && palaceDirs[d] == old(palaceDirs)[d]
      ensures forall d :: d in palaceDirs ==> d in old(palaceDirs) || (d == host.dirOf(pid, s) && palaceDirs[d] == s)
      ensures host.dirOf(pid, s) in palaceDirs
      ensures r.None? <==> palaceDirs[host.dirOf(pid, s)] == s
      ensures r.Some? ==> r.value == DirectoryServed(palaceDirs[host.dirOf(pid, s)])
    {
      var d := host.dirOf(pid, s);
      if d in palaceDirs && palaceDirs[d] != s {
        return Some(DirectoryServed(palaceDirs[d]));
      }
      palaceDirs := palaceDirs[d := s];
      return None;
    }

    /** Take both lock files, the space's first, or neither. */
    method AcquireSpaceLock(s: Space) returns (r: Option<Refusal>)
      modifies this`locks, table
      ensures s in old(locks) ==> r.None? && locks == old(locks) && table.held == old(table.held)
      ensures s !in old(locks) ==>
        r == var d := host.dirOf(pid, s);
             if SpaceFile(host, s) in old(table.held) then Some(SpaceOwned(old(table.held)[SpaceFile(host, s)]))
             else if PalaceFile(host, d) in old(table.held) then Some(PalaceHeld(old(table.held)[PalaceFile(host, d)]))
             else None
      ensures r.Some? ==> locks == old(locks) && table.held == old(table.held)
      ensures s !in old(locks) && r.None? ==>
        locks == old(locks)[s := Claims(host, pid, s)] && table.held == WithClaims(host, pid, old(table.held), s)
    {
      r := None;
      if s in locks { return; }
      var claims := Claims(host, pid, s);
      var taken: seq<File> := [];
      ghost var before := table.held;
      for i := 0 to 2
        invariant taken == claims[..i] && locks == old(locks) && r.None?
        invariant table.held == (if i == 0 then before else if i == 1 then before[claims[0] := Holder(pid, s)]
                                 else before[claims[0] := Holder(pid, s)][claims[1] := Holder(pid, s)])
        invariant forall j :: 0 <= j < i ==> claims[j] !in before
      {
        var file := claims[i];
        if file in table.held {
          var holder := table.held[file];
          assert file in before && holder == before[file];
          assert |taken| == i <= 1 && forall j :: 0 <= j < i ==> taken[j] == claims[0];
          for j := 0 to |taken|
            invariant locks == old(locks)
            invariant table.held == if j < |taken| then before[claims[0] := Holder(pid, s)] else before
          {
            assert before[claims[0] := Holder(pid, s)] - {claims[0]} == before;
            table.held := table.held - {taken[j]};
          }
          return Some(if i == 0 then SpaceOwned(holder) else PalaceHeld(holder));
        }
        table.held := table.held[file := Holder(pid, s)];
        taken := taken + [file];
      }
      assert taken == claims;
      locks := locks[s := taken];
    }

    method ReleaseClaims(s: Space)
      modifies this`locks, this`palaceDirs, table
      ensures locks == old(locks) - {s} && palaceDirs == Dropped(old(palaceDirs), s)
      ensures table.held == old(table.held) - (if s in old(locks) then ToSet(old(locks)[s]) else {})
    {
      var handles := if s in locks then locks[s] else [];
      locks := locks - {s};
      for i := 0 to |handles|
        invariant locks == old(locks) - {s} && palaceDirs == old(palaceDirs)
        invariant table.held == old(table.held) - ToSet(handles[..i])
      {
        table.held := table.held - {handles[i]};
        assert handles[..i + 1] == handles[..i] + [handles[i]];
      }
      assert handles[..|handles|] == handles;
      palaceDirs := map d | d in palaceDirs && palaceDirs[d] != s :: palaceDirs[d];
    }

    /** Claim the directory, take the lock files and prepare the palace; or leave everything as it
        was. `prepared` says whether the work on disk succeeds. */
    method Build(s: Space, prepared: bool) returns (r: Option<Refusal>)
      requires Absent(Books(), s)
      modifies this`locks, this`palaceDirs, table
      ensures r == BuildObjection(host, pid, old(palaceDirs), old(table.held), s, prepared)
      ensures r.Some? ==> locks == old(locks) && palaceDirs == old(palaceDirs) && table.held == old(table.held)
      ensures r.None? ==> host.dirOf(pid, s) !in old(palaceDirs) && locks == old(locks)[s := Claims(host, pid, s)]
      ensures r.None? ==> palaceDirs == old(palaceDirs)[host.dirOf(pid, s) := s]
      ensures r.None? ==> table.held == WithClaims(host, pid, old(table.held), s)
    {
      NothingLeft(host, pid, Books(), table.held, s);
      r := ClaimPalaceDirectory(s);
      if r.None? {
        r := AcquireSpaceLock(s);
      }
      if r.None? && !prepared {
        r := Some(NotPrepared);
      }
      if r.Some? {
        ReleaseClaims(s);
      }
    }

    /** Under the pool lock: check again, then build and publish. */
    method BuildOnce(s: Space, prepared: bool) returns (r: Option<Refusal>)
      requires Valid()
      modifies this, table
      ensures Valid()
      ensures r == if old(closing) then Some(RouterClosing)
                   else if s in old(runtimes) then None
                   else Objection(host, pid, old(Books()), old(table.held), s, prepared)
      ensures Alone() == Attempted(host, old(Alone()), pid, s, prepared)
      ensures runtimes == if old(closing) || s in old(runtimes) || r.Some? then old(runtimes) else old(runtimes) + [s]
    {
      if closing { return Some(RouterClosing); }
      if s in runtimes { return None; }
      DistinctSize(runtimes);
      if |runtimes| >= host.maxSpaces(pid) { return Some(PoolFull); }
      AbsentFromBooks(host, pid, Books(), s);
      r := OpenNew(s, prepared);
    }

    /** Build a space for which there is room, and publish it if nothing forbids it. */
    method OpenNew(s: Space, prepared: bool) returns (r: Option<Refusal>)
      requires Valid() && Absent(Books(), s) && |Books().runtimes| < host.maxSpaces(pid)
      modifies this, table
      ensures Valid()
      ensures r == Objection(host, pid, old(Books()), old(table.held), s, prepared)
      ensures Alone() == Attempted(host, old(Alone()), pid, s, prepared)
      ensures runtimes == if r.Some? then old(runtimes) else old(runtimes) + [s]
    {
      ghost var before, held := Books(), table.held;
      if Objection(host, pid, before, held, s, prepared).None? {
        OpenedIsValid(host, pid, before, held, s, prepared);
      }
      r := Build(s, prepared);
      if r.None? { Publish(s, before); }
    }

    /** A space that has its claims gets its handles and is published. */
    method Publish(s: Space, ghost before: Router)
      requires NoDuplicates(runtimes) && s !in runtimes
      requires Books() == before.(runtimes := ToSet(runtimes), locks := locks, palaceDirs := palaceDirs,
                                  backends := backends, graphs := graphs)
      requires before.runtimes == ToSet(runtimes) && before.backends == backends && before.graphs == graphs
      requires locks == before.locks[s := Claims(host, pid, s)]
      requires palaceDirs == before.palaceDirs[host.dirOf(pid, s) := s]
      modifies this`runtimes, this`backends, this`graphs
      ensures Books() == Opened(host, pid, before, s) && runtimes == old(runtimes) + [s] && NoDuplicates(runtimes)
    {
      runtimes, backends, graphs := runtimes + [s], backends + {s}, graphs + {s};
    }

    /** Every refusal leaves the process and the lock files as they were. */
    method Resolve(s: Space, prepared: bool) returns (r: Option<Refusal>)
      requires Valid()
      modifies this, table
      ensures Valid()
      ensures r == if old(closing) then Some(RouterClosing)
                   else if s in old(runtimes) then None
                   else if allowed.Some? && s !in allowed.value then Some(NotServed)
                   else Objection(host, pid, old(Books()), old(table.held), s, prepared)
      ensures r.Some? ==> Alone() == old(Alone()) && runtimes == old(runtimes)
      ensures r.None? ==> s in runtimes && Alone() == Attempted(host, old(Alone()), pid, s, prepared)
    {
      if closing { return Some(RouterClosing); }
      if s in runtimes { return None; }
      if !Serves(s) { return Some(NotServed); }
      r := BuildOnce(s, prepared);
    }

    /** Stop taking spaces and close those that are open, in the order they were opened, until one
        fails. A close that failed may be asked for again; one that is under way or has succeeded
        is not started twice. */
    method Close(closes: Space -> Closes)
      requires Valid()
      modifies this, table
      ensures Valid() && closing
      ensures !(old(close).NotAsked? || old(close).Failed?) ==>
        Alone() == World(map[pid := old(Books()).(closing := true)], old(table.held)) && runtimes == old(runtimes)
      ensures old(close).NotAsked? || old(close).Failed? ==>
        && runtimes == Retained(old(runtimes), closes)
        && Alone() == Shutdown(World(map[pid := old(Books()).(closing := true, close := Asked)], old(table.held)),
                               pid, old(runtimes), closes)
      ensures old(close).NotAsked? || old(close).Failed? ==>
        && close == (if runtimes == [] then Succeeded else Failed)
        && |runtimes| <= |old(runtimes)| && runtimes == old(runtimes)[|old(runtimes)| - |runtimes|..]
        && (forall i :: 0 <= i < |old(runtimes)| - |runtimes| ==> closes(old(runtimes)[i]).Both?)
        && (runtimes != [] ==> !closes(runtimes[0]).Both?)
    {
      ghost var order := runtimes;
      AskCloseKeeps(host, pid, Books());
      closing := true;
      if !(close.NotAsked? || close.Failed?) { return; }
      close := Asked;
      CloseOutcome(Alone(), pid, order, closes);
      CloseAll(closes);
      assert Alone().routers[pid] == Books();
    }

    method CloseAll(closes: Space -> Closes)
      requires Valid() && closing && close.Asked?
      modifies this`locks, this`palaceDirs, this`runtimes, this`backends, this`graphs, this`close, table
      ensures Valid() && runtimes == Retained(old(runtimes), closes)
      ensures Alone() == Shutdown(old(Alone()), pid, old(runtimes), closes)
    {
      ghost var asked, order := Alone(), runtimes;
      while runtimes != [] && closes(runtimes[0]).Both?
        invariant Valid() && closing && close.Asked?
        invariant Shutdown(Alone(), pid, runtimes, closes) == Shutdown(asked, pid, order, closes)
        invariant Retained(runtimes, closes) == Retained(order, closes)
        decreases |runtimes|
      {
        ghost var before, held := Books(), table.held;
        ShutdownAlone(pid, before, held, runtimes, closes);
        CloseOne(runtimes[0]);
      }
      EndClose(closes);
    }

    /** Everything that closes has been closed. */
    method EndClose(closes: Space -> Closes)
      requires Valid() && closing && close.Asked? && (runtimes == [] || !closes(runtimes[0]).Both?)
      modifies this`backends, this`close
      ensures Valid() && Alone() == Shutdown(old(Alone()), pid, runtimes, closes)
    {
      ghost var before := Books();
      ShutdownAlone(pid, before, table.held, runtimes, closes);
      if runtimes == [] {
        Finish(Succeeded);
      } else if closes(runtimes[0]).BackendFails? {
        Finish(Failed);
      } else {
        CloseBackendOnly(runtimes[0]);
        Finish(Failed);
      }
    }

    /** The backend closes and the graph does not: the space stays, with its claims. */
    method CloseBackendOnly(s: Space)
      requires Valid() && closing && close.Asked? && runtimes != [] && s == runtimes[0]
      modifies this`backends
      ensures Valid() && Books() == HalfShut(old(Books()), s)
    {
      ghost var before := Books();
      HalfShutKeeps(host, pid, before, s);
      HalfShutEntries(before, pid, table.held, s);
      backends := backends - {s};
      assert Books() == HalfShut(before, s);
    }

    method Finish(outcome: CloseTask)
      requires Valid() && closing && close.Asked? && outcome == if runtimes == [] then Succeeded else Failed
      modifies this`close
      ensures Valid() && Books() == old(Books()).(close := outcome)
    {
      ghost var last := Books();
      EndKeeps(host, pid, last);
      SameEntries(last, pid, table.held, outcome);
      close := outcome;
      assert Books() == last.(close := outcome);
    }

    /** The storage of the first space is closed; give back its claims and forget it. */
    method CloseOne(s: Space)
      requires Valid() && closing && close.Asked? && runtimes != [] && s == runtimes[0]
      modifies this`locks, this`palaceDirs, this`runtimes, this`backends, this`graphs, table
      ensures Valid() && runtimes == old(runtimes)[1..]
      ensures Alone() == World(map[pid := Shut(old(Books()), s)], Freed(old(table.held), pid, s))
    {
      ghost var before, held := Books(), table.held;
      InLocks(host, pid, before, s);
      ShutKeeps(host, pid, before, s);
      ShutEntries(host, pid, before, held, s);
      DistinctRest(runtimes);
      backends, graphs := backends - {s}, graphs - {s};
      ReleaseClaims(s);
      runtimes := runtimes[1..];
      assert Books() == Shut(before, s);
    }
  }

  lemma InLocks(h: Host, p: Pid, r: Router, s: Space)
    requires RouterOk(h, p, r) && r.phase.Idle? && s in r.runtimes
    ensures s in r.locks
  {
    assert s in r.locks <==> HoldsBoth(r, s);
  }

  lemma HalfShutKeeps(h: Host, p: Pid, r: Router, s: Space)
    requires RouterOk(h, p, r) && r.phase.Idle? && r.closing
    ensures RouterOk(h, p, HalfShut(r, s))
  {
    var n := HalfShut(r, s);
    assert forall u :: HoldsBoth(n, u) <==> HoldsBoth(r, u);
  }

  lemma HalfShutEntries(r: Router, p: Pid, held: map<File, Holder>, s: Space)
    requires OwnEntries(r, p, held)
    ensures OwnEntries(HalfShut(r, s), p, held)
  {
    forall f, u ensures Holds(HalfShut(r, s), f, u) <==> f in held && held[f] == Holder(p, u) {
      assert Holds(r, f, u) <==> f in held && held[f] == Holder(p, u);
    }
  }

  lemma SameEntries(r: Router, p: Pid, held: map<File, Holder>, outcome: CloseTask)
    requires OwnEntries(r, p, held)
    ensures OwnEntries(r.(close := outcome), p, held)
  {
    forall f, s ensures Holds(r.(close := outcome), f, s) <==> f in held && held[f] == Holder(p, s) {
      assert Holds(r, f, s) <==> f in held && held[f] == Holder(p, s);
    }
  }

  lemma EndKeeps(h: Host, p: Pid, r: Router)
    requires RouterOk(h, p, r) && r.phase.Idle? && r.closing && r.close.Asked?
    ensures RouterOk(h, p, r.(close := Failed))
    ensures r.runtimes == {} ==> RouterOk(h, p, r.(close := Succeeded))
  {
    BeginCloseKeeps(h, p, r);
    var closing := r.(phase := Closing(r.runtimes));
    CloseFailsKeeps(h, p, closing);
    if r.runtimes == {} { EndCloseKeeps(h, p, closing); }
  }

  /** Releasing undoes the claims of an attempt, however far it got. */
  lemma NothingLeft(h: Host, p: Pid, r: Router, t: map<File, Holder>, s: Space)
    requires Absent(r, s)
    ensures r.locks - {s} == r.locks && r.locks[s := Claims(h, p, s)] - {s} == r.locks
    ensures Dropped(r.palaceDirs, s) == r.palaceDirs
    ensures h.dirOf(p, s) !in r.palaceDirs ==> Dropped(r.palaceDirs[h.dirOf(p, s) := s], s) == r.palaceDirs
    ensures t - {} == t
    ensures SpaceFile(h, s) !in t && PalaceFile(h, h.dirOf(p, s)) !in t ==>
      WithClaims(h, p, t, s) - ToSet(Claims(h, p, s)) == t
  {
  }

  // ---- refusing a space that nobody owns -----------------------------------

  /** A process holds the space. */
  ghost predicate Owned(w: World, s: Space, h: Host) {
    exists p :: p in w.routers && Holds(w.routers[p], SpaceFile(h, s), s)
  }

  /** Refused as owned by another process. */
  predicate RefusedAsOwned(h: Host, w: World, p: Pid, s: Space)
    requires p in w.routers
  {
    var o := Objection(h, p, w.routers[p], w.table, s, true);
    o.Some? && o.value.SpaceOwned?
  }

  /** The lock file is keyed on the safe form of the id. A space nobody owns is refused as owned
      exactly when the file of another space with the same safe form is held. */
  lemma UnownedSpaceRefusedIff(h: Host, w: World, p: Pid, s: Space)
    requires Invariant(h, w) && p in w.routers && !Owned(w, s, h)
    requires |w.routers[p].runtimes| < h.maxSpaces(p) && h.dirOf(p, s) !in w.routers[p].palaceDirs
    ensures RefusedAsOwned(h, w, p, s) <==>
      exists q, u :: q in w.routers && h.safe(u) == h.safe(s) && u != s && Holds(w.routers[q], SpaceFile(h, u), u)
  {
    var file := SpaceFile(h, s);
    if RefusedAsOwned(h, w, p, s) {
      var q, u := w.table[file].pid, w.table[file].space;
      HeldIsOwn(h, w, q, file, u);
      assert q in w.routers && h.safe(u) == h.safe(s) && u != s && Holds(w.routers[q], SpaceFile(h, u), u);
    }
    if q, u :| q in w.routers && h.safe(u) == h.safe(s) && u != s && Holds(w.routers[q], SpaceFile(h, u), u) {
      HeldIffInTable(w, q, SpaceFile(h, u), u);
      assert SpaceFile(h, u) == file;
    }
  }

  /** A space lock is held for a space of that name. */
  lemma HeldIsOwn(h: Host, w: World, q: Pid, file: File, u: Space)
    requires Invariant(h, w) && file.SpaceLock? && file in w.table && w.table[file] == Holder(q, u)
    ensures q in w.routers && file == SpaceFile(h, u) && Holds(w.routers[q], file, u)
  {
    assert RouterOk(h, q, w.routers[q]);
    HeldIffInTable(w, q, file, u);
    FilesFit(h, q, w.routers[q], file, u);
  }

  lemma FilesFit(h: Host, p: Pid, r: Router, f: File, s: Space)
    requires RouterOk(h, p, r) && Holds(r, f, s)
    ensures f in Claims(h, p, s)
  {
  }

  /** When every id involved is plain, a space is refused as owned exactly when it is owned. */
  lemma PlainSpaceRefusedIffOwned(h: Host, digest: string -> string, w: World, p: Pid, s: Space)
    requires Invariant(h, w) && p in w.routers
    requires forall x :: |digest(x)| == SafeNames.DIGEST_LENGTH && h.safe(x) == SafeNames.SafeName(digest, x)
    requires SafeNames.Plain(s) && forall f :: f in w.table ==> SafeNames.Plain(w.table[f].space)
    requires |w.routers[p].runtimes| < h.maxSpaces(p) && h.dirOf(p, s) !in w.routers[p].palaceDirs
    ensures RefusedAsOwned(h, w, p, s) <==> Owned(w, s, h)
  {
    var file := SpaceFile(h, s);
    if file in w.table {
      var q, u := w.table[file].pid, w.table[file].space;
      HeldIsOwn(h, w, q, file, u);
      assert h.safe(u) == h.safe(s);
      SafeNames.PlainNamesNeverMeet(digest, u, s);
      assert Holds(w.routers[q], SpaceFile(h, s), s);
    } else {
      forall q | q in w.routers ensures !Holds(w.routers[q], file, s) {
        HeldIffInTable(w, q, file, s);
      }
    }
  }

  /** Process 1 serves one space; process 2 has just started. */
  function TwoProcesses(h: Host, a: Space): World {
    World(map[1 := Opened(h, 1, NEW_ROUTER, a), 2 := NEW_ROUTER], WithClaims(h, 1, map[], a))
  }

  lemma TwoProcessesReached(h: Host, a: Space)
    requires h.maxSpaces(1) > 0
    ensures IsRun(h, START, TwoProcesses(h, a))
  {
    var w1, w2 := World(map[1 := NEW_ROUTER], map[]), World(map[1 := NEW_ROUTER, 2 := NEW_ROUTER], map[]);
    OneStep(h, START, Launch(1), w1);
    OneStep(h, w1, Launch(2), w2);
    Compose(h, START, w1, w2);
    PutAt(w2, 1, NEW_ROUTER, map[], NEW_ROUTER);
    OpeningIsARun(h, w2, 1, NEW_ROUTER, map[], a);
    assert w2.routers[1 := Opened(h, 1, NEW_ROUTER, a)] == TwoProcesses(h, a).routers;
    Compose(h, START, w2, TwoProcesses(h, a));
  }

  /** With two ids of one safe form, serving the first makes the second unavailable everywhere,
      though nobody owns it and its directory is free. */
  lemma SharedNameRefused(h: Host, a: Space, b: Space)
    requires h.maxSpaces(1) > 0 && h.maxSpaces(2) > 0 && a != b && h.safe(a) == h.safe(b)
    ensures IsRun(h, START, TwoProcesses(h, a))
    ensures RefusedAsOwned(h, TwoProcesses(h, a), 2, b) && !Owned(TwoProcesses(h, a), b, h)
  {
    TwoProcessesReached(h, a);
    var w := TwoProcesses(h, a);
    forall p | p in w.routers ensures !Holds(w.routers[p], SpaceFile(h, b), b) {
    }
  }

  /** Dots are allowed in ids and lost in file names. */
  lemma DottedSpaceRefused(h: Host, digest: string -> string)
    requires h.safe("a.b") == SafeNames.SafeName(digest, "a.b") && h.safe("a_b") == SafeNames.SafeName(digest, "a_b")
    requires h.maxSpaces(1) > 0 && h.maxSpaces(2) > 0
    ensures exists w :: IsRun(h, START, w) && 2 in w.routers && RefusedAsOwned(h, w, 2, "a_b") && !Owned(w, "a_b", h)
  {
    SafeNames.DotAndUnderscoreMeet(digest);
    assert "a.b"[1] != "a_b"[1];
    SharedNameRefused(h, "a.b", "a_b");
  }

  // ---- two processes that list one space -----------------------------------

  lemma {:induction false} FilesReleasedRun(h: Host, w: World, p: Pid, r: Router, t: map<File, Holder>)
    requires r.phase.Releasing?
    ensures IsRun(h, At(w, p, r, t), At(w, p, r.(phase := r.phase.(rest := [])), t - ToSet(r.phase.rest)))
    decreases |r.phase.rest|
  {
    var rest := r.phase.rest;
    if rest == [] {
      assert t - ToSet(rest) == t;
      NoSteps(h, At(w, p, r, t));
    } else {
      var n := r.(phase := r.phase.(rest := rest[1..]));
      var t1 := t - {rest[0]};
      PutAt(w, p, r, t, n);
      OneStep(h, At(w, p, r, t), ReleaseFile(p), At(w, p, n, t1));
      FilesReleasedRun(h, w, p, n, t1);
      assert rest == [rest[0]] + rest[1..];
      assert t1 - ToSet(rest[1..]) == t - ToSet(rest);
      Compose(h, At(w, p, r, t), At(w, p, n, t1), At(w, p, r.(phase := r.phase.(rest := [])), t - ToSet(rest)));
    }
  }

  lemma NoSteps(h: Host, w: World)
    ensures IsRun(h, w, w)
  {
    assert Reaches(h, w, [], w);
  }

  /** A router that has closed its one space and given the files back, and has yet to forget it. */
  function AboutToForget(h: Host, p: Pid, s: Space): Router {
    NEW_ROUTER.(runtimes := {s}, palaceDirs := map[h.dirOf(p, s) := s], closing := true, close := Asked,
                phase := Releasing(s, [], ToClosing({s})))
  }

  lemma AboutToForgetReached(h: Host, w: World, p: Pid, s: Space)
    ensures IsRun(h, At(w, p, Opened(h, p, NEW_ROUTER, s), WithClaims(h, p, map[], s)), At(w, p, AboutToForget(h, p, s), map[]))
  {
    var t := WithClaims(h, p, map[], s);
    var open := Opened(h, p, NEW_ROUTER, s);
    var asked := AskedToClose(open);
    var closing := asked.(phase := Closing({s}));
    var half := HalfShut(closing, s).(phase := ClosingGraph(s, {s}));
    var giving := BeginRelease(half.(graphs := {}), s, ToClosing({s}));
    PutAt(w, p, open, t, asked);
    PutAt(w, p, asked, t, closing);
    PutAt(w, p, closing, t, half);
    PutAt(w, p, half, t, giving);
    OneStep(h, At(w, p, open, t), AskClose(p), At(w, p, asked, t));
    OneStep(h, At(w, p, asked, t), BeginClose(p), At(w, p, closing, t));
    OneStep(h, At(w, p, closing, t), CloseBackend(p, s, true), At(w, p, half, t));
    assert half.graphs - {s} == {};
    OneStep(h, At(w, p, half, t), CloseGraph(p, true), At(w, p, giving, t));
    GivingEndsEmpty(h, w, p, s, giving, t);
    Compose(h, At(w, p, open, t), At(w, p, asked, t), At(w, p, closing, t));
    Compose(h, At(w, p, open, t), At(w, p, closing, t), At(w, p, half, t));
    Compose(h, At(w, p, open, t), At(w, p, half, t), At(w, p, giving, t));
    Compose(h, At(w, p, open, t), At(w, p, giving, t), At(w, p, AboutToForget(h, p, s), map[]));
  }

  lemma GivingEndsEmpty(h: Host, w: World, p: Pid, s: Space, r: Router, t: map<File, Holder>)
    requires t == WithClaims(h, p, map[], s)
    requires r == AboutToForget(h, p, s).(phase := Releasing(s, Claims(h, p, s), ToClosing({s})))
    ensures IsRun(h, At(w, p, r, t), At(w, p, AboutToForget(h, p, s), map[]))
  {
    FilesReleasedRun(h, w, p, r, t);
    assert t - ToSet(Claims(h, p, s)) == map[];
  }

  /** A reachable world in which two processes list one space as published: the first has closed its
      storage and given back the files, and the second has taken them. */
  lemma PublishedCanShare(h: Host, s: Space)
    requires h.maxSpaces(1) > 0 && h.maxSpaces(2) > 0
    ensures var v := World(map[1 := AboutToForget(h, 1, s), 2 := Opened(h, 2, NEW_ROUTER, s)], WithClaims(h, 2, map[], s));
      && IsRun(h, START, v) && s in v.routers[1].runtimes && s in v.routers[2].runtimes
      && BeingClosed(v.routers[1], s) && s !in v.routers[1].graphs && s in v.routers[2].graphs
  {
    var two := TwoProcesses(h, s);
    var gone := World(map[1 := AboutToForget(h, 1, s), 2 := NEW_ROUTER], map[]);
    var v := World(map[1 := AboutToForget(h, 1, s), 2 := Opened(h, 2, NEW_ROUTER, s)], WithClaims(h, 2, map[], s));
    TwoProcessesReached(h, s);
    AboutToForgetReached(h, two, 1, s);
    PutAt(two, 1, two.routers[1], two.table, NEW_ROUTER);
    assert two.routers[1 := AboutToForget(h, 1, s)] == gone.routers;
    Compose(h, START, two, gone);
    OpeningIsARun(h, gone, 2, NEW_ROUTER, map[], s);
    PutAt(gone, 2, NEW_ROUTER, map[], NEW_ROUTER);
    assert gone.routers[2 := Opened(h, 2, NEW_ROUTER, s)] == v.routers;
    Compose(h, START, gone, v);
  }
}
