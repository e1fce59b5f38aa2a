/** Ports for the workers of a deployment: a deterministic first choice per realm, and the next
    free one when it is taken. */
module Ports {
  import opened Text
  import opened Ranking

  const LAST_PORT := 65535
  const WINDOW := 2000

  function Base(basePort: int): (b: int)
    ensures 1 <= b <= LAST_PORT
  {
    if basePort < 1 then 1 else if basePort > LAST_PORT then LAST_PORT else basePort
  }

  /** How many ports are probed from the base. */
  function Span(base: int): (n: nat)
    requires 1 <= base <= LAST_PORT
    ensures 1 <= n <= WINDOW && base + n <= LAST_PORT + 1
  {
    if WINDOW < LAST_PORT - base + 1 then WINDOW else LAST_PORT - base + 1
  }

  function Probe(seed: nat, basePort: int, offset: nat): (p: int)
    ensures Base(basePort) <= p < Base(basePort) + Span(Base(basePort))
  {
    Base(basePort) + (seed + offset) % Span(Base(basePort))
  }

  predicate IsPort(p: int) {
    1 <= p <= LAST_PORT
  }

  /** Free at this probe and taken at every earlier one. */
  predicate FirstProbe(seed: nat, basePort: int, used: set<int>, offset: nat) {
    && offset < Span(Base(basePort)) && Probe(seed, basePort, offset) !in used
    && forall o: nat :: o < offset ==> Probe(seed, basePort, o) in used
  }

  predicate WindowTaken(basePort: int, used: set<int>) {
    forall p :: Base(basePort) <= p < Base(basePort) + Span(Base(basePort)) ==> p in used
  }

  /** The port for a realm: the first free one in cyclic order from the seed, or if the window is
      taken the lowest free one. */
  ghost predicate IsChoice(seed: nat, basePort: int, used: set<int>, p: int) {
    || (exists offset: nat :: FirstProbe(seed, basePort, used, offset) && p == Probe(seed, basePort, offset))
    || (WindowTaken(basePort, used) && IsPort(p) && p !in used && forall q :: 1 <= q < p ==> q in used)
  }

  // ---- the probe visits the window once ------------------------------------

  lemma Multiple(n: int, d: int)
    requires n > 0
    ensures d >= 1 ==> n * d >= n
    ensures d <= -1 ==> n * d <= -n
  {
  }

  lemma Quotient(a: int, q: int, r: int, n: int)
    requires n > 0 && a == n * q + r && 0 <= r < n
    ensures a / n == q && a % n == r
  {
    assert a == n * (a / n) + a % n;
    assert n * (a / n - q) == n * (a / n) - n * q;
    Multiple(n, a / n - q);
  }

  lemma ModEqual(a: int, b: int, n: int)
    requires n > 0 && a % n == b % n && -n < a - b < n
    ensures a == b
  {
    assert a == n * (a / n) + a % n && b == n * (b / n) + b % n;
    assert n * (a / n - b / n) == n * (a / n) - n * (b / n);
    Multiple(n, a / n - b / n);
  }

  lemma ModShift(a: int, b: int, n: int)
    requires n > 0
    ensures (a + b % n) % n == (a + b) % n
  {
    var k := b / n;
    assert b == n * k + b % n;
    AddMultiple(a + b % n, k, n);
    assert a + b == a + b % n + n * k;
  }

  lemma AddMultiple(a: int, k: int, n: int)
    requires n > 0
    ensures (a + n * k) % n == a % n
  {
    assert a == n * (a / n) + a % n;
    assert n * (a / n + k) == n * (a / n) + n * k;
    Quotient(a + n * k, a / n + k, a % n, n);
  }

  /** The first probe, and how the probes go on: one port up each time, and from the end of the window
      back to the base. The window has 2000 ports, or what is left up to 65535. */
  lemma ProbesInNumbers(seed: nat, basePort: int, offset: nat)
    ensures var base := if basePort < 1 then 1 else if basePort > 65535 then 65535 else basePort;
      var n := if base > 63536 then 65536 - base else 2000;
      && Probe(seed, basePort, 0) == base + seed % n
      && Probe(seed, basePort, offset + 1)
         == if Probe(seed, basePort, offset) == base + n - 1 then base else Probe(seed, basePort, offset) + 1
  {
    var n := Span(Base(basePort));
    var a := seed + offset;
    assert a == n * (a / n) + a % n;
    if a % n == n - 1 {
      assert a + 1 == n * (a / n + 1) + 0 by { assert n * (a / n + 1) == n * (a / n) + n; }
      Quotient(a + 1, a / n + 1, 0, n);
    } else {
      Quotient(a + 1, a / n, a % n + 1, n);
    }
  }

  predicate ProbedOnlyAt(seed: nat, basePort: int, p: int, offset: nat) {
    var n := Span(Base(basePort));
    offset < n && forall o: nat :: o < n ==> (Probe(seed, basePort, o) == p <==> o == offset)
  }

  /** Each port of the window is probed at exactly one offset. */
  lemma ProbeOnce(seed: nat, basePort: int, p: int)
    requires Base(basePort) <= p < Base(basePort) + Span(Base(basePort))
    ensures exists offset: nat :: ProbedOnlyAt(seed, basePort, p, offset)
  {
    var base, n := Base(basePort), Span(Base(basePort));
    var offset: nat := (p - base - seed) % n;
    ModShift(seed, p - base - seed, n);
    Quotient(p - base, 0, p - base, n);
    assert Probe(seed, basePort, offset) == p;
    forall o: nat | o < n && Probe(seed, basePort, o) == p ensures o == offset {
      ModEqual(seed + o, seed + offset, n);
    }
    assert ProbedOnlyAt(seed, basePort, p, offset);
  }

  lemma NoProbeMeansTaken(seed: nat, basePort: int, used: set<int>)
    requires forall o: nat :: o < Span(Base(basePort)) ==> Probe(seed, basePort, o) in used
    ensures WindowTaken(basePort, used)
  {
    forall p | Base(basePort) <= p < Base(basePort) + Span(Base(basePort)) ensures p in used {
      ProbeOnce(seed, basePort, p);
      var offset: nat :| ProbedOnlyAt(seed, basePort, p, offset);
      assert Probe(seed, basePort, offset) == p;
    }
  }

  // ---- the search ----------------------------------------------------------

  /** Nothing is returned exactly when no port is free. */
  method StablePort(seed: nat, basePort: int, used: set<int>) returns (r: Option<int>)
    ensures r.None? <==> forall p :: IsPort(p) ==> p in used
    ensures r.Some? ==> IsPort(r.value) && r.value !in used && IsChoice(seed, basePort, used, r.value)
  {
    var base := Base(basePort);
    var span := Span(base);
    for offset := 0 to span
      invariant forall o: nat :: o < offset ==> Probe(seed, basePort, o) in used
    {
      var port := base + (seed + offset) % span;
      if port !in used {
        assert port == Probe(seed, basePort, offset) && FirstProbe(seed, basePort, used, offset);
        return Some(port);
      }
    }
    NoProbeMeansTaken(seed, basePort, used);
    for port := 1 to LAST_PORT + 1
      invariant forall q :: 1 <= q < port ==> q in used
    {
      if port !in used { return Some(port); }
    }
    return None;
  }

  /** The choice is a free port, and there is only one. */
  lemma ChoiceIsUnique(seed: nat, basePort: int, used: set<int>, p: int, q: int)
    requires IsChoice(seed, basePort, used, p) && IsChoice(seed, basePort, used, q)
    ensures p == q && IsPort(p) && p !in used
  {
    if o: nat :| FirstProbe(seed, basePort, used, o) && p == Probe(seed, basePort, o) {
      var u: nat :| FirstProbe(seed, basePort, used, u) && q == Probe(seed, basePort, u);
      assert o == u;
    }
  }

  /** How far a port of the window lies after the first probe, going up and round. */
  function Distance(seed: nat, base: int, n: int, p: int): int
    requires n > 0
  {
    (p - base - seed) % n
  }

  lemma DistanceOfProbe(seed: nat, basePort: int, offset: nat)
    requires offset < Span(Base(basePort))
    ensures Distance(seed, Base(basePort), Span(Base(basePort)), Probe(seed, basePort, offset)) == offset
  {
    var n := Span(Base(basePort));
    var from: int := seed;
    ModShift(-from, from + offset, n);
    Quotient(offset, 0, offset, n);
  }

  /** The choice in numbers: while the window has a free port, the free port nearest after the first
      probe; after that the lowest free port of the host. */
  lemma ChoiceInNumbers(seed: nat, basePort: int, used: set<int>, p: int)
    requires IsChoice(seed, basePort, used, p)
    ensures var base := if basePort < 1 then 1 else if basePort > 65535 then 65535 else basePort;
      var n := if base > 63536 then 65536 - base else 2000;
      p !in used &&
      if forall q :: base <= q < base + n ==> q in used then 1 <= p <= 65535 && forall q :: 1 <= q < p ==> q in used
      else base <= p < base + n
           && forall q :: base <= q < base + n && q !in used ==> Distance(seed, base, n, p) <= Distance(seed, base, n, q)
  {
    var base, n := Base(basePort), Span(Base(basePort));
    ChoiceIsUnique(seed, basePort, used, p, p);
    if o: nat :| FirstProbe(seed, basePort, used, o) && p == Probe(seed, basePort, o) {
      DistanceOfProbe(seed, basePort, o);
      forall q | base <= q < base + n && q !in used ensures Distance(seed, base, n, p) <= Distance(seed, base, n, q) {
        ProbeOnce(seed, basePort, q);
        var u: nat :| ProbedOnlyAt(seed, basePort, q, u);
        assert Probe(seed, basePort, u) == q;
        DistanceOfProbe(seed, basePort, u);
      }
    }
  }

  /** Taking one more port moves a realm exactly when it is the realm's own port. */
  lemma MovesIffOwnPort(seed: nat, basePort: int, used: set<int>, p: int, x: int)
    requires IsChoice(seed, basePort, used, p)
    ensures IsChoice(seed, basePort, used + {x}, p) <==> x != p
  {
    ChoiceIsUnique(seed, basePort, used, p, p);
    if x != p {
      if o: nat :| FirstProbe(seed, basePort, used, o) && p == Probe(seed, basePort, o) {
        assert FirstProbe(seed, basePort, used + {x}, o);
      }
    } else if IsChoice(seed, basePort, used + {x}, p) {
      ChoiceIsUnique(seed, basePort, used + {x}, p, p);
    }
  }

  // ---- one shared set ------------------------------------------------------

  datatype Request = Request(seed: nat, basePort: int)

  /** The set the caller shares between allocations. */
  class PortSet {
    var ports: set<int>

    constructor ()
      ensures ports == {}
    {
      ports := {};
    }
  }

  method Allocate(request: Request, book: PortSet) returns (r: Option<int>)
    modifies book
    ensures r.None? <==> forall p :: IsPort(p) ==> p in old(book.ports)
    ensures r.Some? ==> IsChoice(request.seed, request.basePort, old(book.ports), r.value)
    ensures book.ports == old(book.ports) + (if r.Some? then {r.value} else {})
  {
    r := StablePort(request.seed, request.basePort, book.ports);
    if r.Some? {
      book.ports := book.ports + {r.value};
    }
  }

  /** With a shared set the port is taken from it; without one every call starts from nothing and
      returns the first choice. */
  method RouteForRealm(request: Request, shared: PortSet?) returns (r: Option<int>)
    modifies shared
    ensures shared != null ==> (r.None? <==> forall p :: IsPort(p) ==> p in old(shared.ports))
    ensures shared != null && r.Some? ==> IsChoice(request.seed, request.basePort, old(shared.ports), r.value)
    ensures shared != null ==> shared.ports == old(shared.ports) + (if r.Some? then {r.value} else {})
    ensures shared == null ==> r == Some(Probe(request.seed, request.basePort, 0))
  {
    if shared != null {
      r := Allocate(request, shared);
    } else {
      var own := new PortSet();
      r := Allocate(request, own);
      FirstChoice(request);
      ChoiceIsUnique(request.seed, request.basePort, {}, r.value, Probe(request.seed, request.basePort, 0));
    }
  }

  lemma FirstChoice(request: Request)
    ensures IsChoice(request.seed, request.basePort, {}, Probe(request.seed, request.basePort, 0))
    ensures exists p :: IsPort(p)
  {
    assert FirstProbe(request.seed, request.basePort, {}, 0);
    assert IsPort(1);
  }

  /** Requests served one after another from one set. */
  ghost predicate Served(used: set<int>, requests: seq<Request>, ports: seq<int>)
    decreases |requests|
  {
    |requests| == |ports| &&
    (requests != [] ==>
       && IsChoice(requests[0].seed, requests[0].basePort, used, ports[0])
       && Served(used + {ports[0]}, requests[1..], ports[1..]))
  }

  /** Every sequence of allocations gives different ports, none of them taken before, and the set
      grows by one each time. */
  lemma {:induction false} ServedAreDistinct(used: set<int>, requests: seq<Request>, ports: seq<int>)
    requires Served(used, requests, ports)
    ensures NoDuplicates(ports) && used !! ToSet(ports)
    ensures |used + ToSet(ports)| == |used| + |ports|
    decreases |requests|
  {
    if requests != [] {
      ChoiceIsUnique(requests[0].seed, requests[0].basePort, used, ports[0], ports[0]);
      ServedAreDistinct(used + {ports[0]}, requests[1..], ports[1..]);
      OneMoreDistinct(used, ports[0], ports[1..]);
      assert ports == [ports[0]] + ports[1..];
    }
  }

  lemma OneMoreDistinct(used: set<int>, p: int, rest: seq<int>)
    requires p !in used && NoDuplicates(rest) && used + {p} !! ToSet(rest)
    requires |used + {p} + ToSet(rest)| == |used + {p}| + |rest|
    ensures NoDuplicates([p] + rest) && used !! ToSet([p] + rest)
    ensures |used + ToSet([p] + rest)| == |used| + |[p] + rest|
  {
    assert p in used + {p} && ToSet([p]) == {p};
    ConcatDisjoint([p], rest);
    assert used + ToSet([p] + rest) == used + {p} + ToSet(rest);
  }
}
