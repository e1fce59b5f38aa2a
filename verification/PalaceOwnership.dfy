/** Who owns a palace: any number of processes on one host, each with a pool of open spaces.

    A step is one action between two points where another process can be scheduled: taking one lock
    file, claiming one directory, releasing one file. Within a process the pool lock lets one build
    or one close run at a time; `phase` is how far that one has got. */
module PalaceOwnership {
  import opened LockFiles

  /** What happens when the claims of a space have been given back. */
  datatype After = ToIdle | ToClosing(todo: set<Space>)

  datatype Phase =
    | Idle
    | Claiming(space: Space)
    | Locking(space: Space, taken: seq<File>)
    | Preparing(space: Space)
    | Built(space: Space)
    | Releasing(space: Space, rest: seq<File>, after: After)
    | Closing(todo: set<Space>)
    | ClosingGraph(space: Space, todo: set<Space>)

  datatype CloseTask = NotAsked | Asked | Failed | Succeeded

  /** One router. `backends` and `graphs` are the spaces whose handles are open; `runtimes` those it has
      published. */
  datatype Router = Router(
    runtimes: set<Space>, locks: map<Space, seq<File>>, palaceDirs: map<Dir, Space>,
    closing: bool, close: CloseTask, backends: set<Space>, graphs: set<Space>, phase: Phase)

  const NEW_ROUTER := Router({}, map[], map[], false, NotAsked, {}, {}, Idle)
  const GONE := Router({}, map[], map[], true, Succeeded, {}, {}, Idle)

  datatype World = World(routers: map<Pid, Router>, table: map<File, Holder>)

  const START := World(map[], map[])

  datatype Step =
    | Launch(p: Pid)
    | EnterBuild(p: Pid, s: Space)
    | ClaimDirectory(p: Pid)
    | TakeFile(p: Pid)
    | Prepared(p: Pid, ok: bool)
    | Publish(p: Pid)
    | ReleaseFile(p: Pid)
    | EndRelease(p: Pid)
    | AskClose(p: Pid)
    | BeginClose(p: Pid)
    | CloseBackend(p: Pid, s: Space, ok: bool)
    | CloseGraph(p: Pid, ok: bool)
    | EndClose(p: Pid)
    | Crash(p: Pid)

  predicate CanStep(h: Host, w: World, step: Step) {
    if step.Launch? then step.p !in w.routers
    else
      step.p in w.routers &&
      var r := w.routers[step.p];
      match step
      case EnterBuild(p, s) => r.phase.Idle? && !r.closing && s !in r.runtimes && |r.runtimes| < h.maxSpaces(p)
      case ClaimDirectory(_) => r.phase.Claiming?
      case TakeFile(_) => r.phase.Locking?
      case Prepared(_, _) => r.phase.Preparing?
      case Publish(_) => r.phase.Built?
      case ReleaseFile(_) => r.phase.Releasing? && r.phase.rest != []
      case EndRelease(_) => r.phase.Releasing? && r.phase.rest == []
      case AskClose(_) => true
      case BeginClose(_) => r.phase.Idle? && r.close.Asked?
      case CloseBackend(_, s, _) => r.phase.Closing? && s in r.phase.todo
      case CloseGraph(_, _) => r.phase.ClosingGraph?
      case EndClose(_) => r.phase.Closing? && r.phase.todo == {}
      case Crash(_) => true
      case Launch(_) => true
  }

  /** `_release_claims`: forget the claims, then give back the files one by one. */
  function BeginRelease(r: Router, s: Space, after: After): Router {
    r.(locks := r.locks - {s}, phase := Releasing(s, if s in r.locks then r.locks[s] else [], after))
  }

  function Claimed(h: Host, p: Pid, r: Router): Router
    requires r.phase.Claiming?
  {
    var s, d := r.phase.space, h.dirOf(p, r.phase.space);
    if d in r.palaceDirs && r.palaceDirs[d] != s then BeginRelease(r, s, ToIdle)
    else r.(palaceDirs := r.palaceDirs[d := s], phase := if s in r.locks then Preparing(s) else Locking(s, []))
  }

  /** The next of the two claims: taken if its file is free; otherwise what this attempt holds is
      given back. */
  function Took(h: Host, p: Pid, w: World): World
    requires p in w.routers && w.routers[p].phase.Locking?
  {
    var r := w.routers[p];
    var s, taken := r.phase.space, r.phase.taken;
    var file := if taken == [] then SpaceFile(h, s) else PalaceFile(h, h.dirOf(p, s));
    if file in w.table then Put(w, p, r.(phase := Releasing(s, taken, ToIdle)))
    else
      var next := if taken == [] then r.(phase := Locking(s, [file]))
                  else r.(locks := r.locks[s := taken + [file]], phase := Preparing(s));
      Put(w, p, next).(table := w.table[file := Holder(p, s)])
  }

  function Put(w: World, p: Pid, r: Router): World {
    w.(routers := w.routers[p := r])
  }

  function Dropped(dirs: map<Dir, Space>, s: Space): map<Dir, Space> {
    map d | d in dirs && dirs[d] != s :: dirs[d]
  }

  function Ended(r: Router): Router
    requires r.phase.Releasing?
  {
    var s := r.phase.space;
    var released := r.(palaceDirs := Dropped(r.palaceDirs, s));
    match r.phase.after
    case ToIdle => released.(phase := Idle)
    case ToClosing(todo) => released.(runtimes := r.runtimes - {s}, phase := Closing(todo - {s}))
  }

  /** Asking again while a close is under way, or after one has succeeded, starts nothing. */
  function AskedToClose(r: Router): Router {
    r.(closing := true, close := if r.close.NotAsked? || r.close.Failed? then Asked else r.close)
  }

  /** Both handles of a space opened. */
  function Handled(r: Router, s: Space): Router {
    r.(backends := r.backends + {s}, graphs := r.graphs + {s})
  }

  function Without(table: map<File, Holder>, p: Pid): map<File, Holder> {
    map f | f in table && table[f].pid != p :: table[f]
  }

  function Do(h: Host, w: World, step: Step): World
    requires CanStep(h, w, step)
  {
    if step.Launch? then Put(w, step.p, NEW_ROUTER)
    else
      var r := w.routers[step.p];
      match step
      case EnterBuild(p, s) => Put(w, p, r.(phase := Claiming(s)))
      case ClaimDirectory(p) => Put(w, p, Claimed(h, p, r))
      case TakeFile(p) => Took(h, p, w)
      case Prepared(p, ok) =>
        if ok then Put(w, p, Handled(r, r.phase.space).(phase := Built(r.phase.space)))
        else Put(w, p, BeginRelease(r, r.phase.space, ToIdle))
      case Publish(p) => Put(w, p, r.(runtimes := r.runtimes + {r.phase.space}, phase := Idle))
      case ReleaseFile(p) =>
        Put(w, p, r.(phase := r.phase.(rest := r.phase.rest[1..]))).(table := w.table - {r.phase.rest[0]})
      case EndRelease(p) => Put(w, p, Ended(r))
      case AskClose(p) =>
        Put(w, p, AskedToClose(r))
      case BeginClose(p) => Put(w, p, r.(phase := Closing(r.runtimes)))
      case CloseBackend(p, s, ok) =>
        if ok then Put(w, p, r.(backends := r.backends - {s}, phase := ClosingGraph(s, r.phase.todo)))
        else Put(w, p, r.(phase := Idle, close := Failed))
      case CloseGraph(p, ok) =>
        if ok then Put(w, p, BeginRelease(r.(graphs := r.graphs - {r.phase.space}), r.phase.space, ToClosing(r.phase.todo)))
        else Put(w, p, r.(phase := Idle, close := Failed))
      case EndClose(p) => Put(w, p, r.(phase := Idle, close := Succeeded))
      case Crash(p) => Put(w, p, GONE).(table := Without(w.table, p))
      case Launch(p) => w
  }

  // ---- the invariant -------------------------------------------------------

  /** The files a router holds for a space, as its own books say. */
  predicate Holds(r: Router, f: File, s: Space) {
    || (s in r.locks && f in r.locks[s])
    || (r.phase.Locking? && r.phase.space == s && f in r.phase.taken)
    || (r.phase.Releasing? && r.phase.space == s && f in r.phase.rest)
  }

  /** The space a build is working on, if any. */
  predicate Building(r: Router, s: Space) {
    (r.phase.Claiming? || r.phase.Locking? || r.phase.Preparing? || r.phase.Built?) && r.phase.space == s
  }

  /** The space whose claims are being given back in a close. */
  predicate BeingClosed(r: Router, s: Space) {
    r.phase.Releasing? && r.phase.after.ToClosing? && r.phase.space == s
  }

  predicate HoldsBoth(r: Router, s: Space) {
    (s in r.runtimes && !BeingClosed(r, s)) || ((r.phase.Preparing? || r.phase.Built?) && r.phase.space == s)
  }

  /** The books of one router agree with each other. */
  ghost predicate BooksAgree(h: Host, p: Pid, r: Router) {
    && (forall s :: s in r.locks <==> HoldsBoth(r, s))
    && (forall s :: s in r.locks ==> r.locks[s] == Claims(h, p, s))
    && (forall s :: s in r.graphs <==> (s in r.runtimes && !BeingClosed(r, s)) || r.phase == Built(s))
    && r.backends <= r.graphs && (!r.closing ==> r.backends == r.graphs)
    && (forall s :: OwnsDirectory(r, s) ==> h.dirOf(p, s) in r.palaceDirs && r.palaceDirs[h.dirOf(p, s)] == s)
    && (forall d :: d in r.palaceDirs ==> h.dirOf(p, r.palaceDirs[d]) == d && MayOwnDirectory(r, r.palaceDirs[d]))
  }

  /** The spaces that must have their directory claimed, and those that may. */
  predicate OwnsDirectory(r: Router, s: Space) {
    s in r.locks || (r.phase.Locking? && r.phase.space == s) || BeingClosed(r, s)
  }

  predicate MayOwnDirectory(r: Router, s: Space) {
    OwnsDirectory(r, s) || (r.phase.Releasing? && r.phase.space == s)
  }

  /** The phase fits the books. */
  predicate PhaseFits(h: Host, p: Pid, r: Router) {
    match r.phase
    case Idle => true
    case Claiming(s) => s !in r.runtimes && |r.runtimes| < h.maxSpaces(p)
    case Locking(s, taken) => s !in r.runtimes && |r.runtimes| < h.maxSpaces(p) && (taken == [] || taken == [SpaceFile(h, s)])
    case Preparing(s) => s !in r.runtimes && |r.runtimes| < h.maxSpaces(p)
    case Built(s) => s !in r.runtimes && |r.runtimes| < h.maxSpaces(p)
    case Releasing(s, rest, after) =>
      && (rest == [] || rest == [SpaceFile(h, s)] || rest == [PalaceFile(h, h.dirOf(p, s))] || rest == Claims(h, p, s))
      && (after.ToIdle? ==> s !in r.runtimes)
      && (after.ToClosing? ==> r.closing && r.close.Asked? && s in r.runtimes && after.todo == r.runtimes)
    case Closing(todo) => r.closing && r.close.Asked? && todo == r.runtimes
    case ClosingGraph(s, todo) => r.closing && r.close.Asked? && todo == r.runtimes && s in r.runtimes && s !in r.backends
  }

  ghost predicate RouterOk(h: Host, p: Pid, r: Router) {
    && BooksAgree(h, p, r) && PhaseFits(h, p, r)
    && |r.runtimes| <= h.maxSpaces(p)
    && (!r.close.NotAsked? ==> r.closing)
    && (r.close.Succeeded? ==> r.phase.Idle? && r.runtimes == {})
  }

  /** The lock table holds exactly what the routers' books say they hold. */
  ghost predicate TableExact(w: World) {
    && (forall f :: f in w.table ==> w.table[f].pid in w.routers && Holds(w.routers[w.table[f].pid], f, w.table[f].space))
    && (forall p, f, s :: p in w.routers && Holds(w.routers[p], f, s) ==> f in w.table && w.table[f] == Holder(p, s))
  }

  ghost predicate Invariant(h: Host, w: World) {
    && (forall p :: p in w.routers ==> RouterOk(h, p, w.routers[p]))
    && TableExact(w)
  }

  // ---- every step keeps it -------------------------------------------------

  /** A router that changes its books without changing what it holds. */
  lemma SameHoldings(w: World, p: Pid, r: Router)
    requires TableExact(w) && p in w.routers
    requires SameHold(w.routers[p], r)
    ensures TableExact(Put(w, p, r))
  {
  }

  /** Taking a free file. */
  lemma OneMore(w: World, p: Pid, r: Router, file: File, space: Space)
    requires TableExact(w) && p in w.routers && file !in w.table
    requires HoldsMore(w.routers[p], r, file, space)
    ensures TableExact(Put(w, p, r).(table := w.table[file := Holder(p, space)]))
  {
  }

  /** Giving back a file that is held once. */
  lemma OneLess(w: World, p: Pid, r: Router, file: File, space: Space)
    requires TableExact(w) && p in w.routers && Holds(w.routers[p], file, space)
    requires HoldsLess(w.routers[p], r, file, space)
    ensures TableExact(Put(w, p, r).(table := w.table - {file}))
  {
    var n := Put(w, p, r).(table := w.table - {file});
    forall q, f, s | q in n.routers && Holds(n.routers[q], f, s)
      ensures f in n.table && n.table[f] == Holder(q, s)
    {
      assert Holds(w.routers[q], f, s);
    }
    forall f | f in n.table ensures n.table[f].pid in n.routers && Holds(n.routers[n.table[f].pid], f, n.table[f].space) {
      assert Holds(w.routers[w.table[f].pid], f, w.table[f].space);
    }
  }

  lemma CrashKeepsTable(w: World, p: Pid)
    requires TableExact(w) && p in w.routers
    ensures TableExact(Put(w, p, GONE).(table := Without(w.table, p)))
  {
  }

  lemma LaunchKeepsTable(w: World, p: Pid)
    requires TableExact(w) && p !in w.routers
    ensures TableExact(Put(w, p, NEW_ROUTER))
  {
  }

  lemma ClaimRefusedKeeps(h: Host, p: Pid, r: Router)
    requires RouterOk(h, p, r) && r.phase.Claiming?
    ensures var n := BeginRelease(r, r.phase.space, ToIdle); RouterOk(h, p, n) && SameHold(r, n)
  {
  }

  lemma ClaimGrantedKeeps(h: Host, p: Pid, r: Router)
    requires RouterOk(h, p, r) && r.phase.Claiming?
    requires h.dirOf(p, r.phase.space) in r.palaceDirs ==> r.palaceDirs[h.dirOf(p, r.phase.space)] == r.phase.space
    ensures r.phase.space !in r.locks
    ensures var s, d := r.phase.space, h.dirOf(p, r.phase.space);
      var n := r.(palaceDirs := r.palaceDirs[d := s], phase := Locking(s, []));
      RouterOk(h, p, n) && SameHold(r, n)
  {
  }

  lemma ClaimKeeps(h: Host, p: Pid, r: Router)
    requires RouterOk(h, p, r) && r.phase.Claiming?
    ensures RouterOk(h, p, Claimed(h, p, r)) && SameHold(r, Claimed(h, p, r))
  {
    var s, d := r.phase.space, h.dirOf(p, r.phase.space);
    if d in r.palaceDirs && r.palaceDirs[d] != s {
      ClaimRefusedKeeps(h, p, r);
    } else {
      ClaimGrantedKeeps(h, p, r);
    }
  }

  lemma EnterKeeps(h: Host, p: Pid, r: Router, s: Space)
    requires RouterOk(h, p, r) && r.phase.Idle? && !r.closing && s !in r.runtimes && |r.runtimes| < h.maxSpaces(p)
    ensures RouterOk(h, p, r.(phase := Claiming(s)))
    ensures SameHold(r, r.(phase := Claiming(s)))
  {
  }

  lemma PreparedKeeps(h: Host, p: Pid, r: Router)
    requires RouterOk(h, p, r) && r.phase.Preparing?
    ensures var n := Handled(r, r.phase.space).(phase := Built(r.phase.space)); RouterOk(h, p, n) && SameHold(r, n)
  {
  }

  lemma PrepareFailsKeeps(h: Host, p: Pid, r: Router)
    requires RouterOk(h, p, r) && r.phase.Preparing?
    ensures var n := BeginRelease(r, r.phase.space, ToIdle); RouterOk(h, p, n) && SameHold(r, n)
  {
  }

  lemma PublishKeeps(h: Host, p: Pid, r: Router)
    requires RouterOk(h, p, r) && r.phase.Built?
    ensures var n := r.(runtimes := r.runtimes + {r.phase.space}, phase := Idle); RouterOk(h, p, n) && SameHold(r, n)
  {
  }

  lemma AskCloseKeeps(h: Host, p: Pid, r: Router)
    requires RouterOk(h, p, r)
    ensures RouterOk(h, p, AskedToClose(r)) && SameHold(r, AskedToClose(r))
  {
  }

  lemma BeginCloseKeeps(h: Host, p: Pid, r: Router)
    requires RouterOk(h, p, r) && r.phase.Idle? && r.close.Asked?
    ensures var n := r.(phase := Closing(r.runtimes)); RouterOk(h, p, n) && SameHold(r, n)
  {
  }

  lemma CloseFailsKeeps(h: Host, p: Pid, r: Router)
    requires RouterOk(h, p, r) && (r.phase.Closing? || r.phase.ClosingGraph?)
    ensures var n := r.(phase := Idle, close := Failed); RouterOk(h, p, n) && SameHold(r, n)
  {
  }

  lemma EndCloseKeeps(h: Host, p: Pid, r: Router)
    requires RouterOk(h, p, r) && r.phase.Closing? && r.phase.todo == {}
    ensures var n := r.(phase := Idle, close := Succeeded); RouterOk(h, p, n) && SameHold(r, n)
  {
  }

  lemma BackendClosedKeeps(h: Host, p: Pid, r: Router, s: Space)
    requires RouterOk(h, p, r) && r.phase.Closing? && s in r.phase.todo
    ensures var n := r.(backends := r.backends - {s}, phase := ClosingGraph(s, r.phase.todo)); RouterOk(h, p, n) && SameHold(r, n)
  {
  }

  lemma GraphClosedKeeps(h: Host, p: Pid, r: Router)
    requires RouterOk(h, p, r) && r.phase.ClosingGraph?
    ensures var s := r.phase.space;
      var n := BeginRelease(r.(graphs := r.graphs - {s}), s, ToClosing(r.phase.todo)); RouterOk(h, p, n) && SameHold(r, n)
  {
  }

  ghost predicate SameHold(r: Router, n: Router) {
    forall f, s :: Holds(n, f, s) <==> Holds(r, f, s)
  }

  lemma EndBuildKeeps(h: Host, p: Pid, r: Router)
    requires RouterOk(h, p, r) && r.phase.Releasing? && r.phase.rest == [] && r.phase.after.ToIdle?
    ensures RouterOk(h, p, Ended(r)) && SameHold(r, Ended(r))
  {
  }

  lemma EndShutBooks(h: Host, p: Pid, r: Router)
    requires RouterOk(h, p, r) && r.phase.Releasing? && r.phase.rest == [] && r.phase.after.ToClosing?
    ensures BooksAgree(h, p, Ended(r))
  {
    var n := Ended(r);
    assert forall s :: HoldsBoth(n, s) <==> HoldsBoth(r, s);
    assert forall s :: OwnsDirectory(n, s) <==> OwnsDirectory(r, s) && s != r.phase.space;
  }

  lemma EndShutKeeps(h: Host, p: Pid, r: Router)
    requires RouterOk(h, p, r) && r.phase.Releasing? && r.phase.rest == [] && r.phase.after.ToClosing?
    ensures RouterOk(h, p, Ended(r)) && SameHold(r, Ended(r))
  {
    assert |r.runtimes - {r.phase.space}| == |r.runtimes| - 1;
    EndShutBooks(h, p, r);
  }

  lemma EndReleaseKeeps(h: Host, p: Pid, r: Router)
    requires RouterOk(h, p, r) && r.phase.Releasing? && r.phase.rest == []
    ensures RouterOk(h, p, Ended(r)) && SameHold(r, Ended(r))
  {
    if r.phase.after.ToIdle? { EndBuildKeeps(h, p, r); } else { EndShutKeeps(h, p, r); }
  }

  lemma RefusedKeeps(h: Host, p: Pid, r: Router)
    requires RouterOk(h, p, r) && r.phase.Locking?
    ensures var n := r.(phase := Releasing(r.phase.space, r.phase.taken, ToIdle)); RouterOk(h, p, n) && SameHold(r, n)
  {
  }

  lemma FirstTakenKeeps(h: Host, p: Pid, r: Router)
    requires RouterOk(h, p, r) && r.phase.Locking? && r.phase.taken == []
    ensures var file := SpaceFile(h, r.phase.space);
      var n := r.(phase := Locking(r.phase.space, [file]));
      RouterOk(h, p, n) && HoldsMore(r, n, file, r.phase.space)
  {
  }

  lemma SecondTakenKeeps(h: Host, p: Pid, r: Router)
    requires RouterOk(h, p, r) && r.phase.Locking? && r.phase.taken != []
    ensures var s, file := r.phase.space, PalaceFile(h, h.dirOf(p, r.phase.space));
      var n := r.(locks := r.locks[s := r.phase.taken + [file]], phase := Preparing(s));
      RouterOk(h, p, n) && HoldsMore(r, n, file, s)
  {
    var s, file := r.phase.space, PalaceFile(h, h.dirOf(p, r.phase.space));
    assert r.phase.taken + [file] == Claims(h, p, s);
  }

  ghost predicate HoldsMore(r: Router, n: Router, file: File, space: Space) {
    forall f, s :: Holds(n, f, s) <==> Holds(r, f, s) || (f == file && s == space)
  }

  ghost predicate HoldsLess(r: Router, n: Router, file: File, space: Space) {
    forall f, s :: Holds(n, f, s) <==> Holds(r, f, s) && !(f == file && s == space)
  }

  lemma FileReleasedKeeps(h: Host, p: Pid, r: Router)
    requires RouterOk(h, p, r) && r.phase.Releasing? && r.phase.rest != []
    ensures var n := r.(phase := r.phase.(rest := r.phase.rest[1..]));
      RouterOk(h, p, n) && HoldsLess(r, n, r.phase.rest[0], r.phase.space)
    ensures Holds(r, r.phase.rest[0], r.phase.space)
  {
    var rest := r.phase.rest;
    assert rest == [rest[0]] + rest[1..];
    assert rest[1..] == [] || rest[1..] == [PalaceFile(h, h.dirOf(p, r.phase.space))];
    assert r.phase.space !in r.locks;
  }

  /** A step that moves no file. */
  lemma Quietly(h: Host, w: World, p: Pid, n: Router)
    requires Invariant(h, w) && p in w.routers && RouterOk(h, p, n) && SameHold(w.routers[p], n)
    ensures Invariant(h, Put(w, p, n))
  {
    SameHoldings(w, p, n);
  }

  lemma TakeKeeps(h: Host, w: World, p: Pid)
    requires Invariant(h, w) && p in w.routers && w.routers[p].phase.Locking?
    ensures Invariant(h, Took(h, p, w))
  {
    var r := w.routers[p];
    var s, taken := r.phase.space, r.phase.taken;
    var file := if taken == [] then SpaceFile(h, s) else PalaceFile(h, h.dirOf(p, s));
    if file in w.table {
      RefusedKeeps(h, p, r);
      Quietly(h, w, p, r.(phase := Releasing(s, taken, ToIdle)));
    } else if taken == [] {
      FirstTakenKeeps(h, p, r);
      OneMore(w, p, r.(phase := Locking(s, [file])), file, s);
    } else {
      SecondTakenKeeps(h, p, r);
      OneMore(w, p, r.(locks := r.locks[s := taken + [file]], phase := Preparing(s)), file, s);
    }
  }

  lemma ReleaseFileKeeps(h: Host, w: World, p: Pid)
    requires Invariant(h, w) && CanStep(h, w, ReleaseFile(p))
    ensures Invariant(h, Do(h, w, ReleaseFile(p)))
  {
    var r := w.routers[p];
    FileReleasedKeeps(h, p, r);
    OneLess(w, p, r.(phase := r.phase.(rest := r.phase.rest[1..])), r.phase.rest[0], r.phase.space);
  }

  lemma BuildStepKeeps(h: Host, w: World, step: Step)
    requires Invariant(h, w) && CanStep(h, w, step)
    requires step.EnterBuild? || step.ClaimDirectory? || step.Prepared? || step.Publish?
    ensures Invariant(h, Do(h, w, step))
  {
    var r := w.routers[step.p];
    match step
    case EnterBuild(p, s) =>
      EnterKeeps(h, p, r, s);
      Quietly(h, w, p, r.(phase := Claiming(s)));
    case ClaimDirectory(p) =>
      ClaimKeeps(h, p, r);
      Quietly(h, w, p, Claimed(h, p, r));
    case Prepared(p, ok) =>
      if ok {
        PreparedKeeps(h, p, r);
        Quietly(h, w, p, Handled(r, r.phase.space).(phase := Built(r.phase.space)));
      } else {
        PrepareFailsKeeps(h, p, r);
        Quietly(h, w, p, BeginRelease(r, r.phase.space, ToIdle));
      }
    case Publish(p) =>
      PublishKeeps(h, p, r);
      Quietly(h, w, p, r.(runtimes := r.runtimes + {r.phase.space}, phase := Idle));
  }

  lemma CloseStepKeeps(h: Host, w: World, step: Step)
    requires Invariant(h, w) && CanStep(h, w, step)
    requires step.AskClose? || step.BeginClose? || step.CloseBackend? || step.CloseGraph? || step.EndClose? || step.EndRelease?
    ensures Invariant(h, Do(h, w, step))
  {
    var r := w.routers[step.p];
    match step
    case AskClose(p) =>
      AskCloseKeeps(h, p, r);
      Quietly(h, w, p, AskedToClose(r));
    case BeginClose(p) =>
      BeginCloseKeeps(h, p, r);
      Quietly(h, w, p, r.(phase := Closing(r.runtimes)));
    case CloseBackend(p, s, ok) =>
      if ok {
        BackendClosedKeeps(h, p, r, s);
        Quietly(h, w, p, r.(backends := r.backends - {s}, phase := ClosingGraph(s, r.phase.todo)));
      } else {
        CloseFailsKeeps(h, p, r);
        Quietly(h, w, p, r.(phase := Idle, close := Failed));
      }
    case CloseGraph(p, ok) =>
      if ok {
        GraphClosedKeeps(h, p, r);
        Quietly(h, w, p, BeginRelease(r.(graphs := r.graphs - {r.phase.space}), r.phase.space, ToClosing(r.phase.todo)));
      } else {
        CloseFailsKeeps(h, p, r);
        Quietly(h, w, p, r.(phase := Idle, close := Failed));
      }
    case EndClose(p) =>
      EndCloseKeeps(h, p, r);
      Quietly(h, w, p, r.(phase := Idle, close := Succeeded));
    case EndRelease(p) =>
      EndReleaseKeeps(h, p, r);
      Quietly(h, w, p, Ended(r));
  }

  /** A router that has just started, and one that is gone, agree with empty books. */
  lemma EmptyBooks(h: Host, p: Pid)
    ensures RouterOk(h, p, NEW_ROUTER) && RouterOk(h, p, GONE)
  {
  }

  lemma LaunchKeeps(h: Host, w: World, p: Pid)
    requires Invariant(h, w) && p !in w.routers
    ensures Invariant(h, Put(w, p, NEW_ROUTER))
  {
    EmptyBooks(h, p);
    LaunchKeepsTable(w, p);
  }

  lemma CrashKeeps(h: Host, w: World, p: Pid)
    requires Invariant(h, w) && p in w.routers
    ensures Invariant(h, Put(w, p, GONE).(table := Without(w.table, p)))
  {
    EmptyBooks(h, p);
    CrashKeepsTable(w, p);
  }

  /** Every step of every process keeps the books exact and the lock table in agreement with them. */
  lemma StepKeeps(h: Host, w: World, step: Step)
    requires Invariant(h, w) && CanStep(h, w, step)
    ensures Invariant(h, Do(h, w, step))
  {
    if step.EnterBuild? || step.ClaimDirectory? || step.Prepared? || step.Publish? {
      BuildStepKeeps(h, w, step);
    } else if step.AskClose? || step.BeginClose? || step.CloseBackend? || step.CloseGraph? || step.EndClose? || step.EndRelease? {
      CloseStepKeeps(h, w, step);
    } else if step.TakeFile? {
      TakeKeeps(h, w, step.p);
    } else if step.ReleaseFile? {
      ReleaseFileKeeps(h, w, step.p);
    } else if step.Launch? {
      LaunchKeeps(h, w, step.p);
    } else {
      CrashKeeps(h, w, step.p);
    }
  }

  // ---- runs ----------------------------------------------------------------

  ghost predicate Reaches(h: Host, w: World, steps: seq<Step>, v: World)
    decreases |steps|
  {
    if steps == [] then w == v
    else CanStep(h, w, steps[0]) && Reaches(h, Do(h, w, steps[0]), steps[1..], v)
  }

  lemma {:induction false} RunKeeps(h: Host, w: World, steps: seq<Step>, v: World)
    requires Invariant(h, w) && Reaches(h, w, steps, v)
    ensures Invariant(h, v)
    decreases |steps|
  {
    if steps != [] {
      StepKeeps(h, w, steps[0]);
      RunKeeps(h, Do(h, w, steps[0]), steps[1..], v);
    }
  }

  lemma Reachable(h: Host, steps: seq<Step>, v: World)
    requires Reaches(h, START, steps, v)
    ensures Invariant(h, v)
  {
    RunKeeps(h, START, steps, v);
  }

  /** In every reachable state of any number of processes, no two spaces that are being prepared, are
      built or are published and not being released share a space id or a directory, even when
      several spaces resolve to one directory and whatever the lock files are called. */
  lemma OneOwner(h: Host, steps: seq<Step>, v: World, p: Pid, s: Space, q: Pid, t: Space)
    requires Reaches(h, START, steps, v) && p in v.routers && q in v.routers
    requires HoldsBoth(v.routers[p], s) && HoldsBoth(v.routers[q], t)
    requires s == t || h.dirOf(p, s) == h.dirOf(q, t)
    ensures p == q && s == t
  {
    Reachable(h, steps, v);
    var file := if s == t then SpaceFile(h, s) else PalaceFile(h, h.dirOf(p, s));
    HoldsItsClaims(h, p, v.routers[p], s);
    HoldsItsClaims(h, q, v.routers[q], t);
    HeldIffInTable(v, p, file, s);
    HeldIffInTable(v, q, file, t);
  }

  lemma HoldsItsClaims(h: Host, p: Pid, r: Router, s: Space)
    requires RouterOk(h, p, r) && HoldsBoth(r, s)
    ensures Holds(r, SpaceFile(h, s), s) && Holds(r, PalaceFile(h, h.dirOf(p, s)), s)
  {
    assert s in r.locks && r.locks[s] == Claims(h, p, s);
    assert Claims(h, p, s)[0] == SpaceFile(h, s) && Claims(h, p, s)[1] == PalaceFile(h, h.dirOf(p, s));
  }

  /** Two published runtimes share a space or a directory only while the claims of one of them are
      being given back, after its storage has been closed. */
  lemma PublishedShareOnlyInRelease(h: Host, steps: seq<Step>, v: World, p: Pid, s: Space, q: Pid, t: Space)
    requires Reaches(h, START, steps, v) && p in v.routers && q in v.routers
    requires s in v.routers[p].runtimes && t in v.routers[q].runtimes && (p != q || s != t)
    requires s == t || h.dirOf(p, s) == h.dirOf(q, t)
    ensures BeingClosed(v.routers[p], s) || BeingClosed(v.routers[q], t)
    ensures BeingClosed(v.routers[p], s) ==> s !in v.routers[p].backends && s !in v.routers[p].graphs
    ensures BeingClosed(v.routers[q], t) ==> t !in v.routers[q].backends && t !in v.routers[q].graphs
  {
    Reachable(h, steps, v);
    if !BeingClosed(v.routers[p], s) && !BeingClosed(v.routers[q], t) {
      OneOwner(h, steps, v, p, s, q, t);
    }
    if BeingClosed(v.routers[p], s) { ReleasingIsClosed(h, p, v.routers[p]); }
    if BeingClosed(v.routers[q], t) { ReleasingIsClosed(h, q, v.routers[q]); }
  }

  /** No process is half way through a build or a release. */
  predicate Settled(r: Router) {
    r.phase.Idle? || r.phase.Closing? || r.phase.ClosingGraph?
  }

  /** What the lock table holds for a process: the two claims of each published space. */
  ghost predicate TableMatches(h: Host, w: World, p: Pid, published: set<Space>) {
    forall f, s :: f in w.table && w.table[f] == Holder(p, s) <==> s in published && f in Claims(h, p, s)
  }

  /** The books name the published spaces and nothing else. */
  ghost predicate BooksMatch(r: Router) {
    && r.locks.Keys == r.runtimes && r.palaceDirs.Values == r.runtimes
    && r.graphs == r.runtimes && r.backends <= r.runtimes && (!r.closing ==> r.backends == r.runtimes)
    && (forall d, e :: d in r.palaceDirs && e in r.palaceDirs && r.palaceDirs[d] == r.palaceDirs[e] ==> d == e)
  }

  /** Between builds and releases the books are exact: published spaces, held locks, owners of
      claimed directories and open graphs are the same set (backends too, until a close begins), with one directory each, within the
      bound; and the lock table holds two files for each of them and nothing else. So a refused
      build has left nothing behind. */
  lemma BooksExactWhenSettled(h: Host, steps: seq<Step>, v: World, p: Pid)
    requires Reaches(h, START, steps, v) && p in v.routers && Settled(v.routers[p])
    ensures BooksMatch(v.routers[p]) && |v.routers[p].runtimes| <= h.maxSpaces(p)
    ensures TableMatches(h, v, p, v.routers[p].runtimes)
  {
    Reachable(h, steps, v);
    SettledTable(h, v, p);
    SettledBooks(h, p, v.routers[p]);
  }

  lemma SettledTable(h: Host, w: World, p: Pid)
    requires TableExact(w) && p in w.routers && RouterOk(h, p, w.routers[p]) && Settled(w.routers[p])
    ensures TableMatches(h, w, p, w.routers[p].runtimes)
  {
    forall f, s ensures f in w.table && w.table[f] == Holder(p, s) <==> s in w.routers[p].runtimes && f in Claims(h, p, s) {
      SettledEntry(h, w, p, f, s);
    }
  }

  lemma SettledEntry(h: Host, w: World, p: Pid, f: File, s: Space)
    requires TableExact(w) && p in w.routers && RouterOk(h, p, w.routers[p]) && Settled(w.routers[p])
    ensures f in w.table && w.table[f] == Holder(p, s) <==> s in w.routers[p].runtimes && f in Claims(h, p, s)
  {
    SettledHolds(h, p, w.routers[p], f, s);
    HeldIffInTable(w, p, f, s);
  }

  lemma HeldIffInTable(w: World, p: Pid, f: File, s: Space)
    requires TableExact(w) && p in w.routers
    ensures Holds(w.routers[p], f, s) <==> f in w.table && w.table[f] == Holder(p, s)
  {
  }

  lemma SettledBooks(h: Host, p: Pid, r: Router)
    requires RouterOk(h, p, r) && Settled(r)
    ensures BooksMatch(r)
  {
    assert forall s :: HoldsBoth(r, s) <==> s in r.runtimes;
    assert forall s :: OwnsDirectory(r, s) <==> s in r.locks;
    forall s | s in r.runtimes ensures s in r.palaceDirs.Values {
      assert OwnsDirectory(r, s);
    }
    forall s | s in r.palaceDirs.Values ensures s in r.runtimes {
      var d :| d in r.palaceDirs && r.palaceDirs[d] == s;
      assert MayOwnDirectory(r, s);
    }
  }

  lemma SettledHolds(h: Host, p: Pid, r: Router, f: File, s: Space)
    requires RouterOk(h, p, r) && Settled(r)
    ensures Holds(r, f, s) <==> s in r.runtimes && f in Claims(h, p, s)
  {
    assert s in r.locks <==> HoldsBoth(r, s);
  }

  /** Only giving a file back frees it. */
  lemma OnlyReleaseFrees(h: Host, w: World, step: Step, f: File)
    requires CanStep(h, w, step) && !step.Crash? && f in w.table
    requires f !in Do(h, w, step).table || Do(h, w, step).table[f] != w.table[f]
    ensures step.ReleaseFile? && f == w.routers[step.p].phase.rest[0]
  {
  }

  /** A lock file leaves a living process only after both the backend and the graph it protects have
      been closed. */
  lemma LocksOutliveStorage(h: Host, steps: seq<Step>, v: World, step: Step, f: File)
    requires Reaches(h, START, steps, v) && CanStep(h, v, step) && !step.Crash?
    requires f in v.table && (f !in Do(h, v, step).table || Do(h, v, step).table[f] != v.table[f])
    ensures v.table[f].pid in v.routers
    ensures var r, s := v.routers[v.table[f].pid], v.table[f].space; s !in r.backends && s !in r.graphs
  {
    Reachable(h, steps, v);
    OnlyReleaseFrees(h, v, step, f);
    assert RouterOk(h, step.p, v.routers[step.p]);
    ReleasedFileIsClosed(h, v, step.p);
  }

  lemma ReleasedFileIsClosed(h: Host, v: World, p: Pid)
    requires TableExact(v) && p in v.routers && RouterOk(h, p, v.routers[p])
    requires v.routers[p].phase.Releasing? && v.routers[p].phase.rest != []
    ensures var r, f := v.routers[p], v.routers[p].phase.rest[0];
      f in v.table && v.table[f] == Holder(p, r.phase.space) && r.phase.space !in r.backends && r.phase.space !in r.graphs
  {
    var r := v.routers[p];
    ReleasingIsClosed(h, p, r);
    FileReleasedKeeps(h, p, r);
    HeldIffInTable(v, p, r.phase.rest[0], r.phase.space);
  }

  lemma ReleasingIsClosed(h: Host, p: Pid, r: Router)
    requires RouterOk(h, p, r) && r.phase.Releasing?
    ensures r.phase.space !in r.backends && r.phase.space !in r.graphs
  {
  }

  /** Once a space is published, or its process is closing without building it, it is never
      published again by that process. */
  predicate PublishedForGood(r: Router, s: Space) {
    !Building(r, s) && (s in r.runtimes || r.closing)
  }

  lemma {:induction false} BuiltAtMostOnce(h: Host, w: World, steps: seq<Step>, v: World, p: Pid, s: Space)
    requires Reaches(h, w, steps, v) && p in w.routers && PublishedForGood(w.routers[p], s)
    requires Invariant(h, w)
    ensures p in v.routers && PublishedForGood(v.routers[p], s)
    ensures !(v.routers[p].phase == Built(s))
    decreases |steps|
  {
    if steps != [] {
      StepKeeps(h, w, steps[0]);
      StaysPublished(h, w, steps[0], p, s);
      BuiltAtMostOnce(h, Do(h, w, steps[0]), steps[1..], v, p, s);
    }
  }

  lemma StaysPublished(h: Host, w: World, step: Step, p: Pid, s: Space)
    requires Invariant(h, w) && CanStep(h, w, step) && p in w.routers && PublishedForGood(w.routers[p], s)
    ensures p in Do(h, w, step).routers && PublishedForGood(Do(h, w, step).routers[p], s)
  {
    assert PhaseFits(h, p, w.routers[p]) by { assert RouterOk(h, p, w.routers[p]); }
    StaysPublishedInPhase(h, w, step, p, s);
  }

  lemma StaysPublishedInPhase(h: Host, w: World, step: Step, p: Pid, s: Space)
    requires CanStep(h, w, step) && p in w.routers && PublishedForGood(w.routers[p], s)
    requires PhaseFits(h, p, w.routers[p])
    ensures p in Do(h, w, step).routers && PublishedForGood(Do(h, w, step).routers[p], s)
  {
  }

  /** Publishing makes it so. */
  lemma PublishIsForGood(h: Host, w: World, p: Pid)
    requires CanStep(h, w, Publish(p))
    ensures PublishedForGood(Do(h, w, Publish(p)).routers[p], w.routers[p].phase.space)
  {
  }

  /** A space is built at most once: two publications by one process are of different spaces. */
  lemma NeverPublishedTwice(h: Host, first: seq<Step>, w: World, between: seq<Step>, v: World, p: Pid)
    requires Reaches(h, START, first, w) && CanStep(h, w, Publish(p))
    requires Reaches(h, Do(h, w, Publish(p)), between, v) && CanStep(h, v, Publish(p))
    ensures v.routers[p].phase.space != w.routers[p].phase.space
  {
    Reachable(h, first, w);
    StepKeeps(h, w, Publish(p));
    PublishIsForGood(h, w, p);
    BuiltAtMostOnce(h, Do(h, w, Publish(p)), between, v, p, w.routers[p].phase.space);
  }

  /** After a successful close the process holds no claim, has no runtime and no open handle, and
      this never changes again: no later resolve opens a space. */
  lemma {:induction false} ClosedForGood(h: Host, w: World, steps: seq<Step>, v: World, p: Pid)
    requires Invariant(h, w) && Reaches(h, w, steps, v) && p in w.routers && w.routers[p].close.Succeeded?
    ensures p in v.routers && v.routers[p].close.Succeeded? && v.routers[p].phase.Idle?
    ensures var r := v.routers[p]; r.runtimes == {} && r.locks == map[] && r.palaceDirs == map[] && r.backends == r.graphs == {}
    ensures forall f :: f in v.table ==> v.table[f].pid != p
    decreases |steps|
  {
    ClosedIsEmpty(h, p, w.routers[p]);
    if steps != [] {
      StepKeeps(h, w, steps[0]);
      StaysClosed(h, w, steps[0], p);
      ClosedForGood(h, Do(h, w, steps[0]), steps[1..], v, p);
    }
  }

  lemma ClosedIsEmpty(h: Host, p: Pid, r: Router)
    requires RouterOk(h, p, r) && r.close.Succeeded?
    ensures r.phase.Idle? && r.runtimes == {} && r.locks == map[] && r.palaceDirs == map[] && r.backends == r.graphs == {}
    ensures forall f, s :: !Holds(r, f, s)
  {
    SettledBooks(h, p, r);
    NoValuesNoKeys(r.palaceDirs);
  }

  lemma NoValuesNoKeys(dirs: map<Dir, Space>)
    ensures dirs.Values == {} <==> dirs == map[]
  {
    if dirs != map[] {
      var d :| d in dirs;
      assert dirs[d] in dirs.Values;
    }
  }

  lemma StaysClosed(h: Host, w: World, step: Step, p: Pid)
    requires CanStep(h, w, step) && p in w.routers
    requires w.routers[p].close.Succeeded? && w.routers[p].phase.Idle? && w.routers[p].closing
    ensures p in Do(h, w, step).routers && Do(h, w, step).routers[p].close.Succeeded?
  {
  }
}
