/** The ranking score of the retrieval benchmark, in exact arithmetic: a discounted gain divided by
    the gain of the best order of the same items. */
module Ndcg {

  /** Discounts: positive and strictly decreasing, as `1 / log2(i + 2)` is. */
  ghost predicate Discounts(w: nat -> real) {
    (forall i: nat :: w(i) > 0.0) && (forall i: nat, j: nat :: i < j ==> w(i) > w(j))
  }

  function Share(rel: real, weight: real): real {
    rel * weight
  }

  function Gain(w: nat -> real, rel: seq<real>): real {
    if rel == [] then 0.0 else Gain(w, rel[..|rel| - 1]) + Share(rel[|rel| - 1], w(|rel| - 1))
  }

  method Dcg(w: nat -> real, relevances: seq<real>, k: nat) returns (score: real)
    ensures score == Gain(w, if k < |relevances| then relevances[..k] else relevances)
  {
    score := 0.0;
    var top := if k < |relevances| then relevances[..k] else relevances;
    for i := 0 to |top|
      invariant score == Gain(w, top[..i])
    {
      assert top[..i + 1][..i] == top[..i];
      score := score + Share(top[i], w(i));
    }
    assert top[..|top|] == top;
  }

  // ---- the best order ------------------------------------------------------

  predicate Descending(s: seq<real>) {
    forall i, j :: 0 <= i < j < |s| ==> s[i] >= s[j]
  }

  function InsertDown(s: seq<real>, x: real): (r: seq<real>)
    ensures |r| == |s| + 1
  {
    if s == [] || s[|s| - 1] >= x then s + [x] else InsertDown(s[..|s| - 1], x) + [s[|s| - 1]]
  }

  /** The relevances sorted from high to low. */
  function SortDown(s: seq<real>): (r: seq<real>)
    ensures |r| == |s|
  {
    if s == [] then [] else InsertDown(SortDown(s[..|s| - 1]), s[|s| - 1])
  }

  predicate AllAtLeast(s: seq<real>, y: real) {
    forall i :: 0 <= i < |s| ==> s[i] >= y
  }

  lemma AppendDescending(s: seq<real>, y: real)
    requires Descending(s)
    ensures Descending(s + [y]) <==> AllAtLeast(s, y)
    ensures AllAtLeast(s, y) <==> s == [] || s[|s| - 1] >= y
  {
    if Descending(s + [y]) {
      forall i | 0 <= i < |s| ensures s[i] >= y {
        assert (s + [y])[i] >= (s + [y])[|s|];
      }
    }
  }

  lemma {:induction false} InsertDownBounded(s: seq<real>, x: real, y: real)
    requires AllAtLeast(s, y) && x >= y
    ensures AllAtLeast(InsertDown(s, x), y)
  {
    if s != [] && s[|s| - 1] < x {
      InsertDownBounded(s[..|s| - 1], x, y);
    }
  }

  lemma {:induction false} InsertDownItems(s: seq<real>, x: real)
    ensures multiset(InsertDown(s, x)) == multiset(s) + multiset{x}
  {
    if s != [] && s[|s| - 1] < x {
      InsertDownItems(s[..|s| - 1], x);
      LastItem(s);
    }
  }

  lemma LastItem(s: seq<real>)
    requires s != []
    ensures multiset(s) == multiset(s[..|s| - 1]) + multiset{s[|s| - 1]}
  {
    assert s == s[..|s| - 1] + [s[|s| - 1]];
  }

  lemma {:induction false} InsertDownDescends(s: seq<real>, x: real)
    requires Descending(s)
    ensures Descending(InsertDown(s, x))
  {
    AppendDescending(s, x);
    if s != [] && s[|s| - 1] < x {
      var m, y := s[..|s| - 1], s[|s| - 1];
      assert s == m + [y];
      InsertDownDescends(m, x);
      AppendDescending(m, y);
      InsertDownBounded(m, x, y);
      AppendDescending(InsertDown(m, x), y);
    }
  }

  lemma InsertDownSorts(s: seq<real>, x: real)
    requires Descending(s)
    ensures Descending(InsertDown(s, x)) && multiset(InsertDown(s, x)) == multiset(s) + multiset{x}
  {
    InsertDownDescends(s, x);
    InsertDownItems(s, x);
  }

  /** It is the descending order of the same items, and the only one. */
  lemma {:induction false} SortDownSorts(s: seq<real>)
    ensures Descending(SortDown(s)) && multiset(SortDown(s)) == multiset(s)
  {
    if s != [] {
      SortDownSorts(s[..|s| - 1]);
      InsertDownSorts(SortDown(s[..|s| - 1]), s[|s| - 1]);
      assert s == s[..|s| - 1] + [s[|s| - 1]];
    }
  }

  lemma {:induction false} DescendingUnique(a: seq<real>, b: seq<real>)
    requires Descending(a) && Descending(b) && multiset(a) == multiset(b)
    ensures a == b
    decreases |a|
  {
    if a == [] {
      SameLength(a, b);
    } else {
      SameGreatest(a, b);
      assert Descending(a[1..]) && Descending(b[1..]);
      DescendingUnique(a[1..], b[1..]);
      assert a == [a[0]] + a[1..] && b == [b[0]] + b[1..];
    }
  }

  lemma SameLength(a: seq<real>, b: seq<real>)
    requires multiset(a) == multiset(b)
    ensures |a| == |b|
  {
    assert |multiset(a)| == |a| && |multiset(b)| == |b|;
  }

  lemma SameGreatest(a: seq<real>, b: seq<real>)
    requires Descending(a) && Descending(b) && multiset(a) == multiset(b) && a != []
    ensures b != [] && a[0] == b[0] && multiset(a[1..]) == multiset(b[1..])
  {
    SameLength(a, b);
    FirstItem(a);
    FirstItem(b);
    GreatestFirst(a, b[0]);
    GreatestFirst(b, a[0]);
  }

  lemma FirstItem(s: seq<real>)
    requires s != []
    ensures s[0] in multiset(s) && multiset(s[1..]) == multiset(s) - multiset{s[0]}
  {
    assert s == [s[0]] + s[1..];
    assert multiset(s) == multiset{s[0]} + multiset(s[1..]);
  }

  lemma GreatestFirst(s: seq<real>, x: real)
    requires Descending(s) && s != [] && x in multiset(s)
    ensures s[0] >= x
  {
    var i :| 0 <= i < |s| && s[i] == x;
  }

  // ---- the rearrangement inequality ----------------------------------------

  /** Moving an item forward past smaller ones gains, unless there are none. */
  lemma {:induction false} InsertionGains(w: nat -> real, s: seq<real>, x: real)
    requires Discounts(w) && Descending(s)
    ensures Gain(w, s + [x]) <= Gain(w, InsertDown(s, x))
    ensures Gain(w, s + [x]) == Gain(w, InsertDown(s, x)) <==> s == [] || s[|s| - 1] >= x
  {
    if s != [] && s[|s| - 1] < x {
      var m, y, k := s[..|s| - 1], s[|s| - 1], |s| - 1;
      InsertionGains(w, m, x);
      assert (s + [x])[..|s|] == s && (m + [x])[..k] == m;
      assert InsertDown(s, x)[..|s|] == InsertDown(m, x);
      Swap(x, y, w(k), w(k + 1));
    }
  }

  lemma Swap(x: real, y: real, near: real, far: real)
    requires y < x && far < near
    ensures Share(y, near) + Share(x, far) < Share(x, near) + Share(y, far)
  {
    assert (x - y) * (near - far) > 0.0;
  }

  /** No order of the items gains more than the descending one, and only that order gains as much. */
  lemma {:induction false} Rearrangement(w: nat -> real, rel: seq<real>)
    requires Discounts(w)
    ensures Gain(w, rel) <= Gain(w, SortDown(rel))
    ensures Gain(w, rel) == Gain(w, SortDown(rel)) <==> Descending(rel)
  {
    if rel != [] {
      var m, x := rel[..|rel| - 1], rel[|rel| - 1];
      assert rel == m + [x];
      Rearrangement(w, m);
      SortDownSorts(m);
      var best := SortDown(m);
      InsertionGains(w, best, x);
      GainOfAppend(w, best, x);
      GainOfAppend(w, m, x);
      DescendingOfAppend(m, x);
      assert SortDown(rel) == InsertDown(best, x);
      assert Gain(w, rel) - Gain(w, m) == Gain(w, best + [x]) - Gain(w, best);
    }
  }

  lemma GainOfAppend(w: nat -> real, s: seq<real>, x: real)
    ensures Gain(w, s + [x]) == Gain(w, s) + Share(x, w(|s|))
  {
    var t := s + [x];
    assert t[..|t| - 1] == s;
  }

  lemma DescendingOfAppend(m: seq<real>, x: real)
    ensures Descending(m + [x]) <==> Descending(m) && (m == [] || SortDown(m)[|m| - 1] >= x)
  {
    if Descending(m + [x]) {
      forall i, j | 0 <= i < j < |m| ensures m[i] >= m[j] {
        assert (m + [x])[i] >= (m + [x])[j];
      }
    }
    if Descending(m) {
      SortDownSorts(m);
      DescendingUnique(SortDown(m), m);
      AppendDescending(m, x);
    }
  }

  // ---- the score -----------------------------------------------------------

  function Score(w: nat -> real, rel: seq<real>): real {
    var ideal := Gain(w, SortDown(rel));
    if ideal == 0.0 then 0.0 else Gain(w, rel) / ideal
  }

  predicate Binary(rel: seq<real>) {
    forall i :: 0 <= i < |rel| ==> rel[i] == 0.0 || rel[i] == 1.0
  }

  lemma {:induction false} GainOfBinary(w: nat -> real, rel: seq<real>)
    requires Discounts(w) && Binary(rel)
    ensures Gain(w, rel) >= 0.0
    ensures Gain(w, rel) == 0.0 <==> 1.0 !in rel
  {
    if rel != [] {
      var m := rel[..|rel| - 1];
      assert rel == m + [rel[|rel| - 1]];
      GainOfBinary(w, m);
    }
  }

  /** Between 0 and 1 for every list; 0 exactly when nothing in it is relevant; 1 exactly when
      something is and no irrelevant item comes before a relevant one. */
  lemma ScoreBounds(w: nat -> real, rel: seq<real>)
    requires Discounts(w) && Binary(rel)
    ensures 0.0 <= Score(w, rel) <= 1.0
    ensures Score(w, rel) == 0.0 <==> 1.0 !in rel
    ensures Score(w, rel) == 1.0 <==> 1.0 in rel && forall i, j :: 0 <= i < j < |rel| && rel[j] == 1.0 ==> rel[i] == 1.0
  {
    var ideal := SortDown(rel);
    SortDownSorts(rel);
    SameItems(rel, ideal);
    GainOfBinary(w, rel);
    GainOfBinary(w, ideal);
    Rearrangement(w, rel);
    if Gain(w, ideal) != 0.0 {
      Quotient(Gain(w, rel), Gain(w, ideal));
    }
    assert Descending(rel) <==> forall i, j :: 0 <= i < j < |rel| && rel[j] == 1.0 ==> rel[i] == 1.0;
  }

  lemma SameItems(a: seq<real>, b: seq<real>)
    requires multiset(a) == multiset(b)
    ensures Binary(a) ==> Binary(b)
    ensures forall x :: x in a <==> x in b
  {
    forall x ensures x in a <==> x in b {
      assert x in a <==> x in multiset(a);
      assert x in b <==> x in multiset(b);
    }
    if Binary(a) {
      forall i | 0 <= i < |b| ensures b[i] == 0.0 || b[i] == 1.0 {
        assert b[i] in b;
      }
    }
  }

  lemma Quotient(a: real, b: real)
    requires 0.0 <= a <= b && 0.0 < b
    ensures 0.0 <= a / b <= 1.0 && (a / b == 0.0 <==> a == 0.0) && (a / b == 1.0 <==> a == b)
  {
    assert a / b * b == a;
  }

  // ---- the score in numbers ------------------------------------------------

  lemma {:induction false} GainOfUpdate(w: nat -> real, rel: seq<real>, k: nat, x: real)
    requires k < |rel|
    ensures Gain(w, rel[k := x]) == Gain(w, rel) - Share(rel[k], w(k)) + Share(x, w(k))
  {
    var n := |rel| - 1;
    if k == n {
      assert rel[k := x][..n] == rel[..n];
    } else {
      GainOfUpdate(w, rel[..n], k, x);
      assert rel[k := x][..n] == rel[..n][k := x];
    }
  }

  /** Exchanging an irrelevant item with a relevant one below it raises the score, by the difference
      of the two discounts as a share of the best gain. */
  lemma PromotionPays(w: nat -> real, rel: seq<real>, i: nat, j: nat)
    requires Discounts(w) && Binary(rel) && i < j < |rel| && rel[i] == 0.0 && rel[j] == 1.0
    ensures Gain(w, SortDown(rel)) > 0.0
    ensures Score(w, rel[i := 1.0][j := 0.0]) - Score(w, rel) == (w(i) - w(j)) / Gain(w, SortDown(rel)) > 0.0
  {
    Exchanged(w, rel, i, j);
    SameBest(rel, i, j);
    BestGains(w, rel, j);
    ScoreGrows(w, rel, rel[i := 1.0][j := 0.0], w(i) - w(j));
  }

  lemma ScoreGrows(w: nat -> real, rel: seq<real>, better: seq<real>, more: real)
    requires SortDown(better) == SortDown(rel) && Gain(w, SortDown(rel)) > 0.0
    requires Gain(w, better) == Gain(w, rel) + more && more > 0.0
    ensures Score(w, better) - Score(w, rel) == more / Gain(w, SortDown(rel)) > 0.0
  {
    Fraction(Gain(w, better), Gain(w, rel), Gain(w, SortDown(rel)));
  }

  lemma Exchanged(w: nat -> real, rel: seq<real>, i: nat, j: nat)
    requires i < j < |rel| && rel[i] == 0.0 && rel[j] == 1.0
    ensures Gain(w, rel[i := 1.0][j := 0.0]) == Gain(w, rel) + w(i) - w(j)
  {
    GainOfUpdate(w, rel, i, 1.0);
    GainOfUpdate(w, rel[i := 1.0], j, 0.0);
    OneShare(w(i));
    OneShare(w(j));
  }

  lemma SameBest(rel: seq<real>, i: nat, j: nat)
    requires i < j < |rel| && rel[i] == 0.0 && rel[j] == 1.0
    ensures SortDown(rel[i := 1.0][j := 0.0]) == SortDown(rel)
  {
    var better := rel[i := 1.0][j := 0.0];
    assert multiset(better) == multiset(rel);
    SortDownSorts(rel);
    SortDownSorts(better);
    DescendingUnique(SortDown(better), SortDown(rel));
  }

  lemma BestGains(w: nat -> real, rel: seq<real>, j: nat)
    requires Discounts(w) && Binary(rel) && j < |rel| && rel[j] == 1.0
    ensures Gain(w, SortDown(rel)) > 0.0
  {
    SortDownSorts(rel);
    SameItems(rel, SortDown(rel));
    GainOfBinary(w, SortDown(rel));
    assert 1.0 in rel;
  }

  lemma OneShare(x: real)
    ensures Share(1.0, x) == x && Share(0.0, x) == 0.0
  {
  }

  lemma Fraction(a: real, b: real, c: real)
    requires c > 0.0
    ensures a / c - b / c == (a - b) / c
    ensures a > b ==> (a - b) / c > 0.0
  {
    assert (a - b) / c * c == a - b;
  }

  predicate OnlyAt(rel: seq<real>, i: nat) {
    i < |rel| && rel[i] == 1.0 && forall j :: 0 <= j < |rel| && j != i ==> rel[j] == 0.0
  }

  /** A single answer at place i scores its discount against that of the first place. */
  lemma SingleAnswer(w: nat -> real, rel: seq<real>, i: nat)
    requires Discounts(w) && OnlyAt(rel, i)
    ensures Score(w, rel) == w(i) / w(0)
  {
    GainOfSingle(w, rel, i);
    BestOfSingle(w, rel, i);
  }

  lemma {:induction false} GainOfSingle(w: nat -> real, rel: seq<real>, i: nat)
    requires Discounts(w) && OnlyAt(rel, i)
    ensures Gain(w, rel) == w(i)
  {
    var m := rel[..|rel| - 1];
    OneShare(w(|rel| - 1));
    if i == |rel| - 1 { GainOfBinary(w, m); } else { GainOfSingle(w, m, i); }
  }

  lemma {:induction false} BestOfSingle(w: nat -> real, rel: seq<real>, i: nat)
    requires Discounts(w) && OnlyAt(rel, i)
    ensures Gain(w, SortDown(rel)) == w(0)
  {
    var m := rel[..|rel| - 1];
    SortDownSorts(m);
    SameItems(m, SortDown(m));
    if i == |rel| - 1 {
      forall k | 0 <= k < |m| ensures SortDown(m)[k] == 0.0 { assert SortDown(m)[k] in SortDown(m); }
      AnswerAmongNone(w, SortDown(m));
    } else {
      BestOfSingle(w, m, i);
      var best := SortDown(m);
      assert best[|best| - 1] in best;
      GainOfAppend(w, best, 0.0);
      OneShare(w(|best|));
    }
  }

  lemma {:induction false} AnswerAmongNone(w: nat -> real, s: seq<real>)
    requires Discounts(w) && forall k :: 0 <= k < |s| ==> s[k] == 0.0
    ensures Gain(w, InsertDown(s, 1.0)) == w(0)
  {
    OneShare(w(0));
    if s == [] {
      GainOfAppend(w, s, 1.0);
    } else {
      AnswerAmongNone(w, s[..|s| - 1]);
      GainOfAppend(w, InsertDown(s[..|s| - 1], 1.0), 0.0);
      OneShare(w(|s|));
    }
  }

  // ---- one query -----------------------------------------------------------

  /** 1 for each of the first k ranked items that is an answer. */
  function Relevances(rankings: seq<nat>, correct: set<string>, corpus: seq<string>, k: nat): (rel: seq<real>)
    requires forall i :: 0 <= i < |rankings| ==> rankings[i] < |corpus|
    ensures Binary(rel) && |rel| == if k < |rankings| then k else |rankings|
    ensures forall i :: 0 <= i < |rel| ==> (rel[i] == 1.0 <==> corpus[rankings[i]] in correct)
  {
    seq(if k < |rankings| then k else |rankings|,
        i requires 0 <= i < |rankings| => if corpus[rankings[i]] in correct then 1.0 else 0.0)
  }

  method NdcgAt(w: nat -> real, rankings: seq<nat>, correct: set<string>, corpus: seq<string>, k: nat) returns (score: real)
    requires forall i :: 0 <= i < |rankings| ==> rankings[i] < |corpus|
    ensures score == Score(w, Relevances(rankings, correct, corpus, k))
  {
    var relevances := Relevances(rankings, correct, corpus, k);
    var ideal := SortDown(relevances);
    var idcg := Dcg(w, ideal, k);
    assert relevances[..|relevances|] == relevances && ideal[..|ideal|] == ideal;
    if idcg == 0.0 { return 0.0; }
    var dcg := Dcg(w, relevances, k);
    return dcg / idcg;
  }

  method EvaluateRetrieval(w: nat -> real, rankings: seq<nat>, correct: set<string>, corpus: seq<string>, k: nat)
    returns (recallAny: real, recallAll: real, score: real)
    requires Discounts(w)
    requires forall i :: 0 <= i < |rankings| ==> rankings[i] < |corpus|
    ensures recallAny == 0.0 || recallAny == 1.0
    ensures recallAny == 1.0 <==> exists i :: 0 <= i < |rankings| && i < k && corpus[rankings[i]] in correct
    ensures recallAll == 0.0 || recallAll == 1.0
    ensures recallAll == 1.0 <==>
      forall c :: c in correct ==> exists i :: 0 <= i < |rankings| && i < k && corpus[rankings[i]] == c
    ensures score == Score(w, Relevances(rankings, correct, corpus, k)) && 0.0 <= score <= 1.0
    ensures score > 0.0 <==> recallAny == 1.0
    ensures score == 1.0 <==>
      recallAny == 1.0 && forall i, j :: 0 <= i < j < |rankings| && j < k && corpus[rankings[j]] in correct ==> corpus[rankings[i]] in correct
  {
    var top := set i | 0 <= i < |rankings| && i < k :: corpus[rankings[i]];
    recallAny := if exists c | c in correct :: c in top then 1.0 else 0.0;
    recallAll := if forall c | c in correct :: c in top then 1.0 else 0.0;
    score := NdcgAt(w, rankings, correct, corpus, k);
    ghost var rel := Relevances(rankings, correct, corpus, k);
    ScoreBounds(w, rel);
    assert 1.0 in rel <==> exists i :: 0 <= i < |rel| && rel[i] == 1.0;
  }
}
