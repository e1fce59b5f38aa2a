/** One space's readers-writer lock, as the steps its users take between awaits.

    The lock is a condition variable and three counters. A user that finds its condition false
    parks until it is notified; whether a notification can be missed is part of what is proved. */
module SpaceLock {

  type Id = nat

  datatype Want = Read | Write

  /** Where a user is: created but not yet run, queueing (parked, or woken and about to look
      again), inside, or gone. */
  datatype Place = Arriving | Queueing(parked: bool) | Inside | Gone

  datatype User = User(want: Want, place: Place)

  datatype Lock = Lock(users: map<Id, User>, readers: nat, writing: bool, waitingWriters: nat)

  const UNUSED := Lock(map[], 0, false, 0)

  // ---- the condition variable ----------------------------------------------

  function Woken(u: User): User {
    if u.place == Queueing(true) then u.(place := Queueing(false)) else u
  }

  function NotifyAll(l: Lock): Lock {
    l.(users := map i | i in l.users :: Woken(l.users[i]))
  }

  /** What each side waits for. */
  predicate MayEnter(l: Lock, want: Want) {
    match want
    case Read => !l.writing && l.waitingWriters == 0
    case Write => !l.writing && l.readers == 0
  }

  function At(l: Lock, i: Id, place: Place): Lock
    requires i in l.users
  {
    l.(users := l.users[i := l.users[i].(place := place)])
  }

  // ---- the steps -----------------------------------------------------------

  datatype Move = Join(want: Want) | Look | GiveUp | Leave

  predicate Enabled(l: Lock, i: Id, m: Move) {
    match m
    case Join(_) => i !in l.users
    case Look => i in l.users && (l.users[i].place.Arriving? || l.users[i].place == Queueing(false))
    case GiveUp => i in l.users && (l.users[i].place.Arriving? || l.users[i].place.Queueing?)
    case Leave => i in l.users && l.users[i].place.Inside?
  }

  /** A writer that stops waiting, for whatever reason, wakes the readers it was holding off. */
  function StopWaiting(l: Lock): Lock
    requires l.waitingWriters > 0
  {
    var less := l.(waitingWriters := l.waitingWriters - 1);
    if less.waitingWriters == 0 && !less.writing then NotifyAll(less) else less
  }

  /** A first or repeated look at the condition. A writer is counted as waiting before it looks. */
  function Looked(l: Lock, i: Id): Lock
    requires Enabled(l, i, Look) && Consistent(l)
  {
    var want := l.users[i].want;
    var counted := if want.Write? && l.users[i].place.Arriving? then l.(waitingWriters := l.waitingWriters + 1) else l;
    if !MayEnter(counted, want) then At(counted, i, Queueing(true))
    else match want
      case Read => At(counted.(readers := counted.readers + 1), i, Inside)
      case Write =>
        QueueCounted(l, i);
        At(StopWaiting(counted).(writing := true), i, Inside)
  }

  /** A cancelled wait. A user that never ran leaves no trace. */
  function GaveUp(l: Lock, i: Id): Lock
    requires Enabled(l, i, GiveUp) && Consistent(l)
  {
    QueueCounted(l, i);
    At(if l.users[i].want.Write? && l.users[i].place.Queueing? then StopWaiting(l) else l, i, Gone)
  }

  function Left(l: Lock, i: Id): Lock
    requires Enabled(l, i, Leave) && Consistent(l)
  {
    InsideCounted(l, i);
    match l.users[i].want
    case Read =>
      var less := At(l.(readers := l.readers - 1), i, Gone);
      if less.readers == 0 then NotifyAll(less) else less
    case Write => NotifyAll(At(l.(writing := false), i, Gone))
  }

  function Moved(l: Lock, i: Id, m: Move): Lock
    requires Enabled(l, i, m) && Consistent(l)
  {
    match m
    case Join(want) => l.(users := l.users[i := User(want, Arriving)])
    case Look => Looked(l, i)
    case GiveUp => GaveUp(l, i)
    case Leave => Left(l, i)
  }

  // ---- what holds ----------------------------------------------------------

  function InsideAs(users: map<Id, User>, want: Want): set<Id> {
    set i | i in users && users[i].want == want && users[i].place.Inside?
  }

  function QueueingWriters(users: map<Id, User>): set<Id> {
    set i | i in users && users[i].want.Write? && users[i].place.Queueing?
  }

  datatype Tally = Tally(readers: int, writers: int, queueing: int)

  function TallyOf(users: map<Id, User>): Tally {
    Tally(|InsideAs(users, Read)|, |InsideAs(users, Write)|, |QueueingWriters(users)|)
  }

  /** The counters count what they are named for, and a writer inside is alone. */
  predicate Consistent(l: Lock) {
    && TallyOf(l.users) == Tally(l.readers, if l.writing then 1 else 0, l.waitingWriters)
    && (l.writing ==> l.readers == 0)
  }

  /** Nobody sleeps through the moment it could have entered. */
  predicate NoLostWakeUp(l: Lock) {
    forall i :: i in l.users && l.users[i].place == Queueing(true) ==> !MayEnter(l, l.users[i].want)
  }

  lemma QueueCounted(l: Lock, i: Id)
    requires i in l.users && Consistent(l)
    ensures l.users[i].want.Write? && l.users[i].place.Queueing? ==> l.waitingWriters > 0
  {
    if l.users[i].want.Write? && l.users[i].place.Queueing? {
      assert i in QueueingWriters(l.users);
    }
  }

  lemma InsideCounted(l: Lock, i: Id)
    requires i in l.users && l.users[i].place.Inside? && Consistent(l)
    ensures l.users[i].want.Read? ==> l.readers > 0 && !l.writing
    ensures l.users[i].want.Write? ==> l.writing && l.readers == 0
  {
    assert i in InsideAs(l.users, l.users[i].want);
  }

  /** Waking users moves nobody in or out. */
  lemma WakingCountsNothing(l: Lock)
    ensures TallyOf(NotifyAll(l).users) == TallyOf(l.users)
  {
    var n := NotifyAll(l).users;
    assert InsideAs(n, Read) == InsideAs(l.users, Read) && InsideAs(n, Write) == InsideAs(l.users, Write);
    assert QueueingWriters(n) == QueueingWriters(l.users);
  }

  /** What one user contributes to the counts. */
  function Share(u: User): Tally {
    Tally(if u.want.Read? && u.place.Inside? then 1 else 0,
          if u.want.Write? && u.place.Inside? then 1 else 0,
          if u.want.Write? && u.place.Queueing? then 1 else 0)
  }

  function Changed(t: Tally, less: Tally, more: Tally): Tally {
    Tally(t.readers - less.readers + more.readers, t.writers - less.writers + more.writers,
          t.queueing - less.queueing + more.queueing)
  }

  lemma PlaceChange(users: map<Id, User>, i: Id, place: Place)
    requires i in users
    ensures TallyOf(users[i := users[i].(place := place)])
         == Changed(TallyOf(users), Share(users[i]), Share(users[i].(place := place)))
  {
    var u := users[i].(place := place);
    InsideAfter(users, i, u, Read);
    InsideAfter(users, i, u, Write);
    QueueingAfter(users, i, u);
  }

  lemma InsideAfter(users: map<Id, User>, i: Id, u: User, want: Want)
    requires i in users
    ensures |InsideAs(users[i := u], want)| == |InsideAs(users, want)|
        - (if users[i].want == want && users[i].place.Inside? then 1 else 0)
        + (if u.want == want && u.place.Inside? then 1 else 0)
  {
    var stays := u.want == want && u.place.Inside?;
    var before, after := InsideAs(users, want), InsideAs(users[i := u], want);
    forall j | j != i ensures j in after <==> j in before {
      assert j in users ==> users[i := u][j] == users[j];
    }
    SwapMember(before, i, stays, after);
  }

  lemma QueueingAfter(users: map<Id, User>, i: Id, u: User)
    requires i in users
    ensures |QueueingWriters(users[i := u])| == |QueueingWriters(users)|
        - (if users[i].want.Write? && users[i].place.Queueing? then 1 else 0)
        + (if u.want.Write? && u.place.Queueing? then 1 else 0)
  {
    var stays := u.want.Write? && u.place.Queueing?;
    var before, after := QueueingWriters(users), QueueingWriters(users[i := u]);
    forall j | j != i ensures j in after <==> j in before {
      assert j in users ==> users[i := u][j] == users[j];
    }
    SwapMember(before, i, stays, after);
  }

  lemma SwapMember(s: set<Id>, i: Id, stays: bool, n: set<Id>)
    requires (i in n <==> stays) && forall j :: j != i ==> (j in n <==> j in s)
    ensures |n| == |s| - (if i in s then 1 else 0) + (if stays then 1 else 0)
  {
    assert n == (s - {i}) + (if stays then {i} else {});
  }

  lemma JoinCountsNothing(users: map<Id, User>, i: Id, want: Want)
    requires i !in users
    ensures TallyOf(users[i := User(want, Arriving)]) == TallyOf(users)
  {
    var n := users[i := User(want, Arriving)];
    assert InsideAs(n, Read) == InsideAs(users, Read) && InsideAs(n, Write) == InsideAs(users, Write);
    assert QueueingWriters(n) == QueueingWriters(users);
  }

  lemma ReaderLookKeeps(l: Lock, i: Id)
    requires Consistent(l) && NoLostWakeUp(l) && Enabled(l, i, Look) && l.users[i].want.Read?
    ensures Consistent(Looked(l, i)) && NoLostWakeUp(Looked(l, i))
  {
    PlaceChange(l.users, i, Inside);
    PlaceChange(l.users, i, Queueing(true));
  }

  lemma StopWaitingKeeps(l: Lock)
    requires l.waitingWriters > 0 && NoLostWakeUp(l)
    ensures var n := StopWaiting(l);
      && n.waitingWriters == l.waitingWriters - 1 && n.readers == l.readers && n.writing == l.writing
      && n.users.Keys == l.users.Keys && TallyOf(n.users) == TallyOf(l.users) && NoLostWakeUp(n)
      && forall i :: i in l.users ==> n.users[i] == l.users[i] || n.users[i] == Woken(l.users[i])
  {
    WakingCountsNothing(l.(waitingWriters := l.waitingWriters - 1));
  }

  lemma WriterLookKeeps(l: Lock, i: Id)
    requires Consistent(l) && NoLostWakeUp(l) && Enabled(l, i, Look) && l.users[i].want.Write?
    ensures Consistent(Looked(l, i)) && NoLostWakeUp(Looked(l, i))
  {
    QueueCounted(l, i);
    var counted := if l.users[i].place.Arriving? then l.(waitingWriters := l.waitingWriters + 1) else l;
    if MayEnter(counted, Write) {
      StopWaitingKeeps(counted);
      PlaceChange(StopWaiting(counted).users, i, Inside);
    } else {
      PlaceChange(l.users, i, Queueing(true));
    }
  }

  lemma GiveUpKeeps(l: Lock, i: Id)
    requires Consistent(l) && NoLostWakeUp(l) && Enabled(l, i, GiveUp)
    ensures Consistent(GaveUp(l, i)) && NoLostWakeUp(GaveUp(l, i))
  {
    QueueCounted(l, i);
    if l.users[i].want.Write? && l.users[i].place.Queueing? {
      StopWaitingKeeps(l);
      PlaceChange(StopWaiting(l).users, i, Gone);
    } else {
      PlaceChange(l.users, i, Gone);
    }
  }

  lemma NobodyParked(l: Lock)
    ensures NoLostWakeUp(NotifyAll(l))
  {
  }

  lemma LeaveKeeps(l: Lock, i: Id)
    requires Consistent(l) && NoLostWakeUp(l) && Enabled(l, i, Leave)
    ensures Consistent(Left(l, i)) && NoLostWakeUp(Left(l, i))
  {
    InsideCounted(l, i);
    PlaceChange(l.users, i, Gone);
    match l.users[i].want
    case Read =>
      var less := At(l.(readers := l.readers - 1), i, Gone);
      WakingCountsNothing(less);
      NobodyParked(less);
    case Write =>
      var free := At(l.(writing := false), i, Gone);
      WakingCountsNothing(free);
      NobodyParked(free);
  }

  /** Every step of every user, cancellations included, keeps the counters right, a writer alone,
      and every sleeper with a reason to sleep. */
  lemma MoveKeeps(l: Lock, i: Id, m: Move)
    requires Consistent(l) && NoLostWakeUp(l) && Enabled(l, i, m)
    ensures Consistent(Moved(l, i, m)) && NoLostWakeUp(Moved(l, i, m))
  {
    match m
    case Join(want) => JoinCountsNothing(l.users, i, want);
    case Look => if l.users[i].want.Read? { ReaderLookKeeps(l, i); } else { WriterLookKeeps(l, i); }
    case GiveUp => GiveUpKeeps(l, i);
    case Leave => LeaveKeeps(l, i);
  }

  /** Only its own moves take a user in, out or away; others' moves can only wake it. */
  lemma MoveOfAnother(l: Lock, i: Id, m: Move, j: Id)
    requires Consistent(l) && Enabled(l, i, m) && j in l.users && j != i
    ensures j in Moved(l, i, m).users
    ensures Moved(l, i, m).users[j] == l.users[j] || Moved(l, i, m).users[j] == Woken(l.users[j])
  {
  }

  /** Where its own move takes a user. */
  lemma MoveOfOneself(l: Lock, i: Id, m: Move)
    requires Consistent(l) && Enabled(l, i, m)
    ensures Moved(l, i, m).users.Keys == l.users.Keys + {i}
    ensures var u := Moved(l, i, m).users[i];
      && (m.Join? ==> u == User(m.want, Arriving))
      && (m.Look? ==> u.want == l.users[i].want && (u.place.Inside? || u.place == Queueing(true)))
      && (m.Look? && u.place.Inside? ==> MayEnter(l, u.want))
      && (m.GiveUp? || m.Leave? ==> u == l.users[i].(place := Gone))
  {
  }

  lemma OnlyMember<T>(s: set<T>, x: T, y: T)
    requires x in s && y in s && |s| == 1
    ensures x == y
  {
    assert |s - {x}| == 0;
    assert y !in s - {x};
  }

  /** Never a writer together with anybody else. */
  lemma WriterIsAlone(l: Lock, i: Id, j: Id)
    requires Consistent(l) && i in l.users && j in l.users && i != j
    requires l.users[i].place.Inside? && l.users[j].place.Inside?
    ensures l.users[i].want.Read? && l.users[j].want.Read?
  {
    InsideCounted(l, i);
    InsideCounted(l, j);
    if l.users[i].want.Write? {
      assert i in InsideAs(l.users, Write) && j in InsideAs(l.users, Write);
      OnlyMember(InsideAs(l.users, Write), i, j);
    }
  }

  // ---- who gets in ---------------------------------------------------------

  /** Writers inside or in the queue hold off a reader; anybody inside holds off a writer. */
  predicate InTheWay(want: Want, other: User) {
    match want
    case Read => other.want.Write? && (other.place.Inside? || other.place.Queueing?)
    case Write => other.place.Inside?
  }

  /** A look succeeds exactly when nobody is in the way: readers share, and a writer is alone. */
  lemma EntersIff(l: Lock, i: Id)
    requires Consistent(l) && Enabled(l, i, Look)
    ensures Moved(l, i, Look).users[i].place.Inside?
       <==> forall j :: j in l.users ==> !InTheWay(l.users[i].want, l.users[j])
  {
    var want := l.users[i].want;
    if MayEnter(l, want) {
      assert InsideAs(l.users, Write) == {};
      assert want.Read? ==> QueueingWriters(l.users) == {};
      assert want.Write? ==> InsideAs(l.users, Read) == {};
      forall j | j in l.users ensures !InTheWay(want, l.users[j]) {
        assert j !in InsideAs(l.users, Write);
        assert want.Read? ==> j !in QueueingWriters(l.users);
        assert want.Write? ==> j !in InsideAs(l.users, Read);
      }
    } else {
      var blockers := InsideAs(l.users, Write) + if want.Read? then QueueingWriters(l.users) else InsideAs(l.users, Read);
      assert blockers != {};
      var j :| j in blockers;
      assert InTheWay(want, l.users[j]);
    }
  }

  // ---- writers first -------------------------------------------------------

  datatype Act = Act(i: Id, move: Move)

  ghost predicate Leads(l: Lock, acts: seq<Act>, n: Lock)
    decreases |acts|
  {
    if acts == [] then l == n
    else Consistent(l) && Enabled(l, acts[0].i, acts[0].move) && Leads(Moved(l, acts[0].i, acts[0].move), acts[1..], n)
  }

  predicate Waits(l: Lock, w: Id) {
    w in l.users && l.users[w].want.Write? && l.users[w].place.Queueing?
  }

  /** The writer is in the queue all along. */
  ghost predicate WaitsThroughout(l: Lock, acts: seq<Act>, w: Id)
    decreases |acts|
  {
    Waits(l, w) && (acts != [] && Consistent(l) && Enabled(l, acts[0].i, acts[0].move) ==>
                      WaitsThroughout(Moved(l, acts[0].i, acts[0].move), acts[1..], w))
  }

  predicate ReadingAt(l: Lock, i: Id) {
    i in l.users && l.users[i].want.Read? && l.users[i].place.Inside?
  }

  lemma NoReaderEnters(l: Lock, j: Id, m: Move, w: Id, i: Id)
    requires Consistent(l) && Enabled(l, j, m) && Waits(l, w) && ReadingAt(Moved(l, j, m), i)
    ensures ReadingAt(l, i)
  {
    QueueCounted(l, w);
    if i == j { MoveOfOneself(l, j, m); } else if i in l.users { MoveOfAnother(l, j, m, i); }
  }

  /** For as long as a writer waits, whatever else happens, no reader gets in: those that read at the
      end were reading all along. */
  lemma {:induction false} WritersFirst(l: Lock, acts: seq<Act>, n: Lock, w: Id, i: Id)
    requires Consistent(l) && NoLostWakeUp(l) && Leads(l, acts, n) && WaitsThroughout(l, acts, w)
    requires ReadingAt(n, i)
    ensures ReadingAt(l, i)
    decreases |acts|
  {
    if acts != [] {
      MoveKeeps(l, acts[0].i, acts[0].move);
      WritersFirst(Moved(l, acts[0].i, acts[0].move), acts[1..], n, w, i);
      NoReaderEnters(l, acts[0].i, acts[0].move, w, i);
    }
  }

  /** The lock cannot wedge: when nobody is inside and somebody wants in, somebody's next look
      succeeds. */
  lemma SomebodyGetsIn(l: Lock, i: Id) returns (winner: Id)
    requires Consistent(l) && NoLostWakeUp(l)
    requires InsideAs(l.users, Read) == {} && InsideAs(l.users, Write) == {}
    requires i in l.users && !l.users[i].place.Gone?
    ensures Enabled(l, winner, Look) && Looked(l, winner).users[winner].place.Inside?
  {
    assert i !in InsideAs(l.users, l.users[i].want);
    if l.waitingWriters > 0 {
      assert QueueingWriters(l.users) != {};
      winner :| winner in QueueingWriters(l.users);
    } else {
      winner := i;
    }
  }
}
