/** `ORDER BY ... LIMIT n` and the theory of taking the best n in pieces.

    A query that orders by a key with ties does not fix which of the tied rows it returns, so a
    result is described by a relation, `IsTop`, and not by a function. `Covers` is what makes the
    rewritten reads of the graph correct: a subset that holds, for every row it leaves out, n rows
    at least as good. It survives unions and the removal of rows, and the best n of a covering
    subset are the best n of everything. */
module Ranking {

  ghost predicate TotalPreorder<T(!new)>(ge: (T, T) -> bool) {
    && (forall x, y :: ge(x, y) || ge(y, x))
    && (forall x, y, z :: ge(x, y) && ge(y, z) ==> ge(x, z))
  }

  ghost predicate Antisymmetric<T(!new)>(ge: (T, T) -> bool) {
    forall x, y :: ge(x, y) && ge(y, x) ==> x == y
  }

  predicate NoDuplicates<T(==)>(s: seq<T>) {
    forall i, j :: 0 <= i < j < |s| ==> s[i] != s[j]
  }

  function ToSet<T(==)>(s: seq<T>): set<T> {
    set x | x in s
  }

  predicate Ordered<T>(ge: (T, T) -> bool, s: seq<T>) {
    forall i, j :: 0 <= i < j < |s| ==> ge(s[i], s[j])
  }

  function Min(a: nat, b: nat): nat {
    if a <= b then a else b
  }

  /** `rows` are the best `n` members of `pool`, best first. */
  ghost predicate IsTop<T(!new)>(ge: (T, T) -> bool, pool: set<T>, n: nat, rows: seq<T>) {
    && NoDuplicates(rows)
    && ToSet(rows) <= pool
    && Ordered(ge, rows)
    && |rows| == Min(n, |pool|)
    && (forall x, i :: x in pool && x !in rows && 0 <= i < |rows| ==> ge(rows[i], x))
  }

  /** Everything `part` leaves out of `pool` is beaten or matched by `n` members of `part`. */
  ghost predicate Covers<T(!new)>(ge: (T, T) -> bool, pool: set<T>, n: nat, part: set<T>) {
    && part <= pool
    && (forall x :: x in pool && x !in part ==> Beaten(ge, n, part, x))
  }

  ghost predicate Beaten<T(!new)>(ge: (T, T) -> bool, n: nat, part: set<T>, x: T) {
    exists best: set<T> :: best <= part && |best| == n && AllAbove(ge, best, x)
  }

  ghost predicate AllAbove<T(!new)>(ge: (T, T) -> bool, best: set<T>, x: T) {
    forall d :: d in best ==> ge(d, x)
  }

  // ---- cardinalities -------------------------------------------------------

  lemma {:induction false} DistinctSize<T>(s: seq<T>)
    requires NoDuplicates(s)
    ensures |ToSet(s)| == |s|
  {
    if s != [] {
      var front := s[..|s| - 1];
      DistinctSize(front);
      assert ToSet(s) == ToSet(front) + {s[|s| - 1]};
      assert s[|s| - 1] !in ToSet(front);
    }
  }

  lemma {:induction false} SubsetSize<T>(a: set<T>, b: set<T>)
    requires a <= b
    ensures |a| <= |b|
    ensures |a| == |b| ==> a == b
  {
    if a != {} {
      var x :| x in a;
      SubsetSize(a - {x}, b - {x});
    }
  }

  lemma {:induction false} SubsetOfSize<T>(a: set<T>, n: nat) returns (b: set<T>)
    requires n <= |a|
    ensures b <= a && |b| == n
  {
    if n == |a| {
      b := a;
    } else {
      var x :| x in a;
      b := SubsetOfSize(a - {x}, n);
    }
  }

  lemma ConcatDisjoint<T>(a: seq<T>, b: seq<T>)
    requires NoDuplicates(a) && NoDuplicates(b) && ToSet(a) !! ToSet(b)
    ensures NoDuplicates(a + b) && ToSet(a + b) == ToSet(a) + ToSet(b)
  {
    forall i, j | 0 <= i < |a| && 0 <= j < |b| ensures a[i] != b[j] {
      assert a[i] in ToSet(a) && b[j] in ToSet(b);
    }
  }

  lemma DistinctSlices<T>(s: seq<T>, m: nat, n: nat)
    requires NoDuplicates(s) && m <= n <= |s|
    ensures ToSet(s[..m]) !! ToSet(s[m..n]) && ToSet(s[..n]) == ToSet(s[..m]) + ToSet(s[m..n])
  {
    assert s[..n] == s[..m] + s[m..n];
    forall k, l | 0 <= k < m && 0 <= l < n - m ensures s[..m][k] != s[m..n][l] {
    }
  }

  // ---- covering ------------------------------------------------------------

  /** A result that was cut at `n` covers the pool it was taken from. */
  lemma TopCovers<T(!new)>(ge: (T, T) -> bool, pool: set<T>, n: nat, rows: seq<T>)
    requires IsTop(ge, pool, n, rows)
    ensures Covers(ge, pool, n, ToSet(rows))
  {
    DistinctSize(rows);
    forall x | x in pool && x !in ToSet(rows)
      ensures Beaten(ge, n, ToSet(rows), x)
    {
      SubsetSize(ToSet(rows) + {x}, pool);
      assert |ToSet(rows) + {x}| == |rows| + 1;
      assert |ToSet(rows)| == n && AllAbove(ge, ToSet(rows), x);
    }
  }

  lemma CoversUnion<T(!new)>(ge: (T, T) -> bool, p: set<T>, q: set<T>, n: nat, a: set<T>, b: set<T>)
    requires Covers(ge, p, n, a) && Covers(ge, q, n, b)
    ensures Covers(ge, p + q, n, a + b)
  {
    forall x | x in p + q && x !in a + b
      ensures Beaten(ge, n, a + b, x)
    {
      if x in p {
        assert Beaten(ge, n, a, x);
        var best :| best <= a && |best| == n && AllAbove(ge, best, x);
        assert best <= a + b;
      } else {
        assert Beaten(ge, n, b, x);
        var best :| best <= b && |best| == n && AllAbove(ge, best, x);
        assert best <= a + b;
      }
    }
  }

  /** Rows dropped from a covering part cost it at most their own number. */
  lemma CoversWithout<T(!new)>(ge: (T, T) -> bool, pool: set<T>, n: nat, part: set<T>, gone: set<T>)
    requires Covers(ge, pool, n, part) && |gone| <= n
    ensures Covers(ge, pool - gone, n - |gone|, part - gone)
  {
    forall x | x in pool - gone && x !in part - gone
      ensures Beaten(ge, n - |gone|, part - gone, x)
    {
      assert Beaten(ge, n, part, x);
      var best :| best <= part && |best| == n && AllAbove(ge, best, x);
      SubsetSize(best * gone, gone);
      assert best == (best - gone) + (best * gone);
      assert |best - gone| == n - |best * gone|;
      var fewer := SubsetOfSize(best - gone, n - |gone|);
      assert fewer <= part - gone && AllAbove(ge, fewer, x);
    }
  }

  /** The best rows of a covering part are the best rows of the whole pool. */
  lemma TopOfCover<T(!new)>(ge: (T, T) -> bool, pool: set<T>, n: nat, part: set<T>, m: nat, rows: seq<T>)
    requires TotalPreorder(ge)
    requires Covers(ge, pool, n, part) && m <= n
    requires IsTop(ge, part, m, rows)
    ensures IsTop(ge, pool, m, rows)
  {
    DistinctSize(rows);
    SubsetSize(part, pool);
    forall x | x in pool && x !in part
      ensures |rows| == m
      ensures forall i :: 0 <= i < |rows| ==> ge(rows[i], x)
    {
      assert Beaten(ge, n, part, x);
      var best :| best <= part && |best| == n && AllAbove(ge, best, x);
      SubsetSize(best, part);
      forall i | 0 <= i < |rows| ensures ge(rows[i], x) {
        if best <= ToSet(rows) {
          SubsetSize(best, ToSet(rows));
          assert rows[i] in ToSet(rows);
        } else {
          var d :| d in best && d !in ToSet(rows);
          assert ge(rows[i], d) && ge(d, x);
        }
      }
    }
    if pool != part {
      var x :| x in pool && x !in part;
      assert |rows| == m;
    } else {
      assert part == pool;
    }
  }

  /** Ties may be returned either way, but never change the key at a position. */
  lemma TopKeysAgree<T(!new)>(ge: (T, T) -> bool, pool: set<T>, n: nat, a: seq<T>, b: seq<T>)
    requires TotalPreorder(ge)
    requires IsTop(ge, pool, n, a) && IsTop(ge, pool, n, b)
    ensures |a| == |b|
    ensures forall i :: 0 <= i < |a| ==> ge(a[i], b[i]) && ge(b[i], a[i])
  {
    forall i | 0 <= i < |a| ensures ge(a[i], b[i]) && ge(b[i], a[i]) {
      TopKeyAtLeast(ge, pool, n, a, b, i);
      TopKeyAtLeast(ge, pool, n, b, a, i);
    }
  }

  lemma TopKeyAtLeast<T(!new)>(ge: (T, T) -> bool, pool: set<T>, n: nat, a: seq<T>, b: seq<T>, i: nat)
    requires TotalPreorder(ge)
    requires IsTop(ge, pool, n, a) && IsTop(ge, pool, n, b)
    requires i < |a|
    ensures ge(a[i], b[i])
  {
    if !ge(a[i], b[i]) {
      var early, late := ToSet(b[..i + 1]), ToSet(a[..i]);
      forall y | y in early ensures y in late {
        var j :| 0 <= j <= i && b[j] == y;
        assert j == i || ge(b[j], b[i]);
        assert !ge(a[i], y);
        assert y in ToSet(b) && y in pool;
        assert y in a;
        var k :| 0 <= k < |a| && a[k] == y;
        assert k < i;
        assert a[..i][k] == y;
      }
      DistinctSize(b[..i + 1]);
      DistinctSize(a[..i]);
      SubsetSize(early, late);
    }
  }

  /** With an order that has no ties the result is unique. */
  lemma TopUnique<T(!new)>(ge: (T, T) -> bool, pool: set<T>, n: nat, a: seq<T>, b: seq<T>)
    requires TotalPreorder(ge) && Antisymmetric(ge)
    requires IsTop(ge, pool, n, a) && IsTop(ge, pool, n, b)
    ensures a == b
  {
    TopKeysAgree(ge, pool, n, a, b);
  }

  /** A cut that is not shorter than the pool keeps all of it. */
  lemma TopOfAll<T(!new)>(ge: (T, T) -> bool, pool: set<T>, n: nat, rows: seq<T>)
    requires IsTop(ge, pool, n, rows) && |pool| <= n
    ensures ToSet(rows) == pool
  {
    DistinctSize(rows);
    SubsetSize(ToSet(rows), pool);
  }

  /** Cutting a result again is the same as asking for fewer rows. */
  lemma TopPrefix<T(!new)>(ge: (T, T) -> bool, pool: set<T>, n: nat, rows: seq<T>, m: nat)
    requires IsTop(ge, pool, n, rows) && m <= n
    ensures IsTop(ge, pool, m, rows[..Min(m, |rows|)])
  {
    var cut := rows[..Min(m, |rows|)];
    forall x, i | x in pool && x !in cut && 0 <= i < |cut|
      ensures ge(cut[i], x)
    {
      if x in rows {
        var j :| 0 <= j < |rows| && rows[j] == x;
        assert forall k :: 0 <= k < |cut| ==> cut[k] == rows[k];
        assert j >= |cut|;
      }
    }
  }

  /** The best rows, followed by the best of what is left, are the best of both lengths. */
  lemma TopThenRest<T(!new)>(ge: (T, T) -> bool, pool: set<T>, a: seq<T>, m: nat, b: seq<T>)
    requires TotalPreorder(ge)
    requires IsTop(ge, pool, |a|, a) && IsTop(ge, pool - ToSet(a), m, b)
    ensures IsTop(ge, pool, |a| + |b|, a + b)
    ensures ToSet(a + b) == ToSet(a) + ToSet(b)
    ensures |b| < m ==> ToSet(a + b) == pool
  {
    ConcatDisjoint(a, b);
    DistinctSize(a + b);
    SubsetSize(ToSet(a + b), pool);
    forall i, j | 0 <= i < |a| && 0 <= j < |b| ensures ge(a[i], b[j]) {
      assert b[j] in ToSet(b) && b[j] !in a;
    }
    forall x, i | x in pool && x !in a + b && 0 <= i < |a + b| ensures ge((a + b)[i], x) {
      assert x !in a && x !in b;
    }
    if |b| < m {
      TopOfAll(ge, pool - ToSet(a), m, b);
    }
  }

  /** One more page of at most `limit` rows, read with one row to spare. */
  lemma PageStep<T(!new)>(ge: (T, T) -> bool, pool: set<T>, shown: seq<T>, rows: seq<T>, limit: nat)
    requires TotalPreorder(ge) && limit >= 1
    requires IsTop(ge, pool, |shown|, shown) && IsTop(ge, pool - ToSet(shown), limit + 1, rows)
    ensures var next := shown + rows[..Min(limit, |rows|)]; IsTop(ge, pool, |next|, next)
    ensures |rows| <= limit ==> ToSet(shown + rows) == pool
    ensures |rows| > limit ==> |shown| + limit <= |pool|
  {
    var visible := rows[..Min(limit, |rows|)];
    TopPrefix(ge, pool - ToSet(shown), limit + 1, rows, limit);
    TopThenRest(ge, pool, shown, limit, visible);
    if |rows| <= limit {
      TopThenRest(ge, pool, shown, limit + 1, rows);
    }
  }

  // ---- layers and existence ------------------------------------------------

  /** A pool in two layers, every member of the first strictly above the second: the answer is the
      answer for the first layer followed by the answer for the second. */
  lemma TopOfLayers<T(!new)>(ge: (T, T) -> bool, a: set<T>, b: set<T>, n: nat, rows: seq<T>)
    requires IsTop(ge, a + b, n, rows) && a !! b
    requires forall x, y :: x in a && y in b ==> !ge(y, x)
    ensures Min(n, |a|) <= |rows|
    ensures IsTop(ge, a, n, rows[..Min(n, |a|)])
    ensures IsTop(ge, b, n - Min(n, |a|), rows[Min(n, |a|)..])
  {
    var w := Min(n, |a|);
    assert |a + b| == |a| + |b|;
    FirstLayerFirst(ge, a, b, n, rows);
    var front, back := rows[..w], rows[w..];
    assert rows == front + back;
    forall i | 0 <= i < |front| ensures front[i] in a { assert rows[i] in a; }
    forall i | 0 <= i < |back| ensures back[i] in b { assert rows[w + i] in b; }
  }

  /** Each row is at least as good as whatever has not come before it. */
  lemma AboveTheRest<T(!new)>(ge: (T, T) -> bool, pool: set<T>, n: nat, rows: seq<T>, i: nat, x: T)
    requires IsTop(ge, pool, n, rows) && i < |rows| && x in pool && x !in rows[..i] && x != rows[i]
    ensures ge(rows[i], x)
  {
    if x in rows {
      var j :| 0 <= j < |rows| && rows[j] == x;
      assert forall k :: 0 <= k < i ==> rows[..i][k] == rows[k];
    }
  }

  lemma SomeoneLeft<T(!new)>(a: set<T>, rows: seq<T>, i: nat) returns (x: T)
    requires NoDuplicates(rows) && i < |rows| && i < |a|
    ensures x in a && x !in rows[..i]
  {
    DistinctSize(rows[..i]);
    if a <= ToSet(rows[..i]) {
      SubsetSize(a, ToSet(rows[..i]));
      assert false;
    }
    x :| x in a && x !in ToSet(rows[..i]);
  }

  lemma FirstLayerFirst<T(!new)>(ge: (T, T) -> bool, a: set<T>, b: set<T>, n: nat, rows: seq<T>)
    requires IsTop(ge, a + b, n, rows) && a !! b && |a + b| == |a| + |b|
    requires forall x, y :: x in a && y in b ==> !ge(y, x)
    ensures forall i :: 0 <= i < Min(n, |a|) ==> rows[i] in a
    ensures forall i :: Min(n, |a|) <= i < |rows| ==> rows[i] in b
  {
    var w := Min(n, |a|);
    forall i | 0 <= i < w ensures rows[i] in a {
      assert rows[i] in ToSet(rows);
      var x := SomeoneLeft(a, rows, i);
      if x != rows[i] { AboveTheRest(ge, a + b, n, rows, i, x); }
    }
    if w == |a| {
      var first := ToSet(rows[..w]);
      DistinctSize(rows[..w]);
      assert first <= a;
      SubsetSize(first, a);
      forall i | w <= i < |rows| ensures rows[i] in b {
        assert rows[i] in ToSet(rows);
        assert rows[i] !in rows[..w];
        assert rows[i] !in first;
      }
    }
  }

  /** A finer order answers for a coarser one. */
  lemma TopOfFiner<T(!new)>(ge: (T, T) -> bool, finer: (T, T) -> bool, pool: set<T>, n: nat, rows: seq<T>)
    requires forall x, y :: finer(x, y) ==> ge(x, y)
    ensures IsTop(finer, pool, n, rows) ==> IsTop(ge, pool, n, rows)
  {
  }

  lemma {:induction false} Greatest<T(!new)>(ge: (T, T) -> bool, pool: set<T>) returns (best: T)
    requires TotalPreorder(ge) && pool != {}
    ensures best in pool && forall x :: x in pool ==> ge(best, x)
    decreases |pool|
  {
    var x :| x in pool;
    var rest := pool - {x};
    best := x;
    if rest != {} {
      var y := Greatest(ge, rest);
      best := if ge(x, y) then x else y;
    }
    assert forall z :: z in pool ==> z == x || z in rest;
    assert ge(x, x);
  }

  /** Every query has an answer. */
  lemma {:induction false} TopExists<T(!new)>(ge: (T, T) -> bool, pool: set<T>, n: nat) returns (rows: seq<T>)
    requires TotalPreorder(ge)
    ensures IsTop(ge, pool, n, rows)
    decreases |pool|
  {
    if n == 0 || pool == {} {
      rows := [];
    } else {
      var best := Greatest(ge, pool);
      var rest := TopExists(ge, pool - {best}, n - 1);
      rows := [best] + rest;
      forall i | 0 <= i < |rest| ensures rest[i] != best && rest[i] in pool { assert rest[i] in ToSet(rest); }
    }
  }

  // ---- the engine ----------------------------------------------------------

  /** One ordered, bounded SELECT over the rows that passed its WHERE clause. Which of several
      equal rows comes first is left open, as it is in SQL. */
  method SelectTop<T(==, !new)>(ge: (T, T) -> bool, pool: set<T>, n: nat) returns (rows: seq<T>)
    requires TotalPreorder(ge)
    ensures IsTop(ge, pool, n, rows)
  {
    rows := [];
    var rest := pool;
    while |rows| < n && rest != {}
      invariant Selecting(ge, pool, n, rows, rest)
      decreases |rest|
    {
      var best := Best(ge, rest);
      Extend(ge, pool, n, rows, rest, best);
      rows := rows + [best];
      rest := rest - {best};
    }
    SelectionDone(ge, pool, n, rows, rest);
  }

  /** Part of the way through: `rows` are chosen, `rest` is still to be looked at. */
  ghost predicate Selecting<T(!new)>(ge: (T, T) -> bool, pool: set<T>, n: nat, rows: seq<T>, rest: set<T>) {
    && rest == pool - ToSet(rows) && ToSet(rows) <= pool
    && NoDuplicates(rows) && Ordered(ge, rows) && |rows| <= n
    && (forall x, i :: x in rest && 0 <= i < |rows| ==> ge(rows[i], x))
  }

  lemma Extend<T(!new)>(ge: (T, T) -> bool, pool: set<T>, n: nat, rows: seq<T>, rest: set<T>, best: T)
    requires Selecting(ge, pool, n, rows, rest) && |rows| < n
    requires best in rest && forall x :: x in rest ==> ge(best, x)
    ensures Selecting(ge, pool, n, rows + [best], rest - {best})
  {
    assert ToSet(rows + [best]) == ToSet(rows) + {best};
    assert best !in ToSet(rows);
  }

  lemma SelectionDone<T(!new)>(ge: (T, T) -> bool, pool: set<T>, n: nat, rows: seq<T>, rest: set<T>)
    requires Selecting(ge, pool, n, rows, rest) && (|rows| == n || rest == {})
    ensures IsTop(ge, pool, n, rows)
  {
    DistinctSize(rows);
    assert pool == ToSet(rows) + rest;
  }

  method Best<T(==, !new)>(ge: (T, T) -> bool, pool: set<T>) returns (best: T)
    requires TotalPreorder(ge) && pool != {}
    ensures best in pool && forall x :: x in pool ==> ge(best, x)
  {
    best :| best in pool;
    var rest := pool - {best};
    while rest != {}
      invariant best in pool && rest <= pool
      invariant forall x :: x in pool && x !in rest ==> ge(best, x)
      decreases |rest|
    {
      var x :| x in rest;
      if ge(x, best) { best := x; }
      rest := rest - {x};
    }
  }
}
