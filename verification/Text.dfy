/** Strings as SQLite and Python compare them, and the few string operations the graph relies on.

    SQLite compares TEXT with the BINARY collation (bytes of UTF-8), and Python compares code
    points; both are the same order, which is `Less` here. */
module Text {

  datatype Option<+T> = None | Some(value: T)

  /** Strict lexicographic order by code point. */
  predicate Less(a: string, b: string)
  {
    if b == [] then false
    else if a == [] then true
    else if a[0] != b[0] then a[0] < b[0]
    else Less(a[1..], b[1..])
  }

  predicate AtMost(a: string, b: string) {
    !Less(b, a)
  }

  /** `Less` is a strict total order. */
  lemma {:induction false} LessIrreflexive(a: string)
    ensures !Less(a, a)
  {
    if a != [] { LessIrreflexive(a[1..]); }
  }

  lemma {:induction false} LessTransitive(a: string, b: string, c: string)
    requires Less(a, b) && Less(b, c)
    ensures Less(a, c)
  {
    if a != [] && a[0] == b[0] && b[0] == c[0] {
      LessTransitive(a[1..], b[1..], c[1..]);
    }
  }

  lemma {:induction false} LessTotal(a: string, b: string)
    ensures Less(a, b) || a == b || Less(b, a)
  {
    if a != [] && b != [] && a[0] == b[0] {
      LessTotal(a[1..], b[1..]);
      if a[1..] == b[1..] {
        assert a == [a[0]] + a[1..];
        assert b == [b[0]] + b[1..];
      }
    }
  }

  lemma LessAsymmetric(a: string, b: string)
    requires Less(a, b)
    ensures !Less(b, a)
  {
    if Less(b, a) {
      LessTransitive(a, b, a);
      LessIrreflexive(a);
    }
  }

  /** Two strings with heads of equal length compare by the heads first. */
  lemma {:induction false} LessOfConcat(a: string, b: string, x: string, y: string)
    requires |a| == |b|
    ensures Less(a + x, b + y) <==> Less(a, b) || (a == b && Less(x, y))
  {
    if a == [] {
      assert a + x == x && b + y == y;
    } else {
      assert (a + x)[1..] == a[1..] + x;
      assert (b + y)[1..] == b[1..] + y;
      LessOfConcat(a[1..], b[1..], x, y);
      assert a == [a[0]] + a[1..];
      assert b == [b[0]] + b[1..];
      assert a[0] == b[0] ==> (a[1..] == b[1..] <==> a == b);
    }
  }

  predicate SmallerAt(a: string, b: string, k: nat) {
    k < |a| && k < |b| && a[..k] == b[..k] && a[k] < b[k]
  }

  /** The first difference decides, and a proper prefix comes first. */
  lemma {:induction false} LessIff(a: string, b: string)
    ensures Less(a, b) <==> a < b || exists k: nat :: SmallerAt(a, b, k)
  {
    if a != [] && b != [] && a[0] == b[0] {
      LessIff(a[1..], b[1..]);
      assert a == [a[0]] + a[1..] && b == [b[0]] + b[1..];
      if k: nat :| SmallerAt(a[1..], b[1..], k) {
        assert a[..k + 1] == [a[0]] + a[1..][..k] && b[..k + 1] == [b[0]] + b[1..][..k];
        assert SmallerAt(a, b, k + 1);
      }
      if k: nat :| SmallerAt(a, b, k) {
        assert forall i :: 0 <= i < k - 1 ==> a[1..][i] == a[..k][i + 1] == b[..k][i + 1] == b[1..][i];
        assert SmallerAt(a[1..], b[1..], k - 1);
      }
    } else if a != [] && b != [] {
      forall k: nat | 0 < k <= |a| && k <= |b| ensures a[..k] != b[..k] { assert a[..k][0] != b[..k][0]; }
      if a[0] < b[0] { assert SmallerAt(a, b, 0); }
    }
  }

  /** SQL NULL sorts below every value. */
  predicate NullableLess(a: Option<string>, b: Option<string>) {
    match (a, b)
    case (_, None) => false
    case (None, Some(_)) => true
    case (Some(x), Some(y)) => Less(x, y)
  }

  /** `COALESCE(x, '')` */
  function OrEmpty(a: Option<string>): string {
    if a.Some? then a.value else ""
  }

  /** Python's truth test on an optional string. */
  predicate Truthy(a: Option<string>) {
    a.Some? && a.value != ""
  }

  // ---- whitespace ----------------------------------------------------------

  /** The code points `str.strip` removes. */
  predicate IsSpace(c: char) {
    var n := c as int;
    || 0x09 <= n <= 0x0D || 0x1C <= n <= 0x20 || n == 0x85 || n == 0xA0 || n == 0x1680
    || 0x2000 <= n <= 0x200A || n == 0x2028 || n == 0x2029 || n == 0x202F || n == 0x205F || n == 0x3000
  }

  function StripLeft(s: string): string {
    if s != [] && IsSpace(s[0]) then StripLeft(s[1..]) else s
  }

  function StripRight(s: string): string {
    if s != [] && IsSpace(s[|s| - 1]) then StripRight(s[..|s| - 1]) else s
  }

  function Strip(s: string): string {
    StripRight(StripLeft(s))
  }

  /** Neither end is white space. */
  predicate Stripped(s: string) {
    s != [] ==> !IsSpace(s[0]) && !IsSpace(s[|s| - 1])
  }

  /** What was cut off is white space on both sides, and what is left has none at its ends. */
  lemma {:induction false} StripLeftCuts(s: string) returns (n: nat)
    ensures n <= |s| && StripLeft(s) == s[n..]
    ensures forall i :: 0 <= i < n ==> IsSpace(s[i])
    ensures n < |s| ==> !IsSpace(s[n])
  {
    if s != [] && IsSpace(s[0]) {
      var m := StripLeftCuts(s[1..]);
      n := m + 1;
      assert s[1..][m..] == s[n..];
      forall i | 0 <= i < n ensures IsSpace(s[i]) {
        if i > 0 { assert s[i] == s[1..][i - 1]; }
      }
    } else {
      n := 0;
    }
  }

  lemma {:induction false} StripRightCuts(s: string) returns (n: nat)
    ensures n <= |s| && StripRight(s) == s[..n]
    ensures forall i :: n <= i < |s| ==> IsSpace(s[i])
    ensures n > 0 ==> !IsSpace(s[n - 1])
  {
    if s != [] && IsSpace(s[|s| - 1]) {
      n := StripRightCuts(s[..|s| - 1]);
      assert s[..|s| - 1][..n] == s[..n];
      forall i | n <= i < |s| ensures IsSpace(s[i]) {
        if i < |s| - 1 { assert s[i] == s[..|s| - 1][i]; }
      }
    } else {
      n := |s|;
    }
  }

  lemma StripCuts(s: string) returns (from: nat, to: nat)
    ensures from <= to <= |s| && Strip(s) == s[from..to]
    ensures forall i :: 0 <= i < from || to <= i < |s| ==> IsSpace(s[i])
    ensures Stripped(Strip(s))
  {
    from := StripLeftCuts(s);
    var n := StripRightCuts(s[from..]);
    to := from + n;
    assert s[from..][..n] == s[from..to];
    forall i | 0 <= i < from || to <= i < |s| ensures IsSpace(s[i]) {
      if i >= to { assert s[i] == s[from..][i - from]; }
    }
  }

  /** `strip` changes nothing exactly on strings without outer white space. */
  lemma StripFixesStripped(s: string)
    ensures Strip(s) == s <==> Stripped(s)
  {
    var from, to := StripCuts(s);
    if Stripped(s) && s != [] {
      assert from == 0 && to == |s|;
    }
  }

  // ---- occurrence ----------------------------------------------------------

  function Window(text: string, start: int, size: int): string
    requires 0 <= start && 0 <= size && start + size <= |text|
  {
    text[start..start + size]
  }

  lemma WindowOfSlice(s: string, from: nat, to: nat, start: nat, size: nat)
    requires from <= to <= |s| && start + size <= to - from
    ensures Window(s[from..to], start, size) == Window(s, from + start, size)
  {
    var a, b := Window(s[from..to], start, size), Window(s, from + start, size);
    assert forall k :: 0 <= k < size ==> a[k] == s[from..to][start + k] == b[k];
  }

  /** Python's `piece in text`. */
  predicate Occurs(piece: string, text: string) {
    exists i | 0 <= i <= |text| :: OccursAt(piece, text, i)
  }

  predicate OccursAt(piece: string, text: string, i: int) {
    0 <= i && i + |piece| <= |text| && Window(text, i, |piece|) == piece
  }

  predicate SplitsAs(text: string, before: string, piece: string, after: string) {
    text == before + piece + after
  }

  /** A piece occurs in a text when the text is the piece with something before and after it. */
  lemma OccursIff(piece: string, text: string)
    ensures Occurs(piece, text) <==> exists before, after :: SplitsAs(text, before, piece, after)
  {
    if i :| 0 <= i <= |text| && OccursAt(piece, text, i) {
      assert text == text[..i] + text[i..i + |piece|] + text[i + |piece|..];
      assert SplitsAs(text, text[..i], piece, text[i + |piece|..]);
    }
    if before, after :| SplitsAs(text, before, piece, after) {
      assert Window(text, |before|, |piece|) == piece;
      assert OccursAt(piece, text, |before|);
    }
  }

  /** Position of the first colon, or the length when there is none. */
  function ColonAt(s: string): (n: nat)
    ensures n <= |s|
    ensures forall i :: 0 <= i < n ==> s[i] != ':'
    ensures n < |s| ==> s[n] == ':'
  {
    if s == [] || s[0] == ':' then 0
    else
      var n := ColonAt(s[1..]);
      assert forall i :: 0 < i < n + 1 ==> s[i] == s[1..][i - 1];
      n + 1
  }

  /** What follows the first colon, if there is one. */
  function Tail(s: string): Option<string> {
    if ColonAt(s) < |s| then Some(s[ColonAt(s) + 1..]) else None
  }

  /** The tail of `prefix:rest` is `rest`, whatever colons that has; a name without a colon has none. */
  lemma TailOfPrefixed(prefix: string, rest: string)
    requires ':' !in prefix
    ensures Tail(prefix + ":" + rest) == Some(rest)
    ensures Tail(prefix) == None
  {
    var s := prefix + ":" + rest;
    assert s[|prefix|] == ':';
    assert forall i :: 0 <= i < |prefix| ==> prefix[i] != ':' && s[i] == prefix[i];
    assert ColonAt(s) == |prefix| && ColonAt(prefix) == |prefix|;
    assert s[|prefix| + 1..] == rest;
  }
}
