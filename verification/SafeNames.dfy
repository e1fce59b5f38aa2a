/** `nats_safe_name`: the form of a space id or of a path that names its lock file. */
module SafeNames {
  import opened Text
  import Audience

  const MAX_LENGTH := 180
  const DIGEST_LENGTH := 16

  /** `[A-Za-z0-9_-]` */
  predicate IsSafe(c: char) {
    Audience.IsAlphanumeric(c) || c == '_' || c == '-'
  }

  /** Every run of other characters becomes one underscore. */
  function Collapse(s: string, inRun: bool): string {
    if s == [] then []
    else if IsSafe(s[0]) then [s[0]] + Collapse(s[1..], false)
    else (if inRun then [] else ['_']) + Collapse(s[1..], true)
  }

  function TrimLeft(s: string): string {
    if s != [] && s[0] == '_' then TrimLeft(s[1..]) else s
  }

  function TrimRight(s: string): string {
    if s != [] && s[|s| - 1] == '_' then TrimRight(s[..|s| - 1]) else s
  }

  function SafeName(digest: string -> string, value: string): string {
    var raw := Strip(value);
    var trimmed := TrimRight(TrimLeft(Collapse(raw, false)));
    var safe := if trimmed == [] then "default" else trimmed;
    if |safe| <= MAX_LENGTH then safe
    else
      var keep := MAX_LENGTH - DIGEST_LENGTH - 1;
      safe[..keep] + "_" + digest(raw)
  }

  /** Names that stay as they are. */
  predicate Plain(s: string) {
    && 1 <= |s| <= MAX_LENGTH
    && (forall c :: c in s ==> IsSafe(c))
    && s[0] != '_' && s[|s| - 1] != '_'
  }

  lemma {:induction false} CollapseKeepsSafe(s: string, inRun: bool)
    requires forall c :: c in s ==> IsSafe(c)
    ensures Collapse(s, inRun) == s
  {
    if s != [] {
      CollapseKeepsSafe(s[1..], false);
      assert s == [s[0]] + s[1..];
    }
  }

  lemma {:induction false} CollapseIsSafe(s: string, inRun: bool)
    ensures forall c :: c in Collapse(s, inRun) ==> IsSafe(c)
    ensures |Collapse(s, inRun)| <= |s|
  {
    if s != [] { CollapseIsSafe(s[1..], !IsSafe(s[0])); }
  }

  lemma {:induction false} TrimLeftTrims(s: string)
    ensures |TrimLeft(s)| <= |s| && (forall c :: c in TrimLeft(s) ==> c in s)
    ensures TrimLeft(s) == [] || TrimLeft(s)[0] != '_'
  {
    if s != [] && s[0] == '_' { TrimLeftTrims(s[1..]); }
  }

  lemma {:induction false} TrimRightTrims(s: string)
    ensures TrimRight(s) <= s
    ensures TrimRight(s) == [] || TrimRight(s)[|TrimRight(s)| - 1] != '_'
  {
    if s != [] && s[|s| - 1] == '_' { TrimRightTrims(s[..|s| - 1]); }
  }

  /** A name is its own safe form exactly when it is plain. */
  lemma SafeNameFixesPlain(digest: string -> string, v: string)
    requires |digest(Strip(v))| == DIGEST_LENGTH
    ensures SafeName(digest, v) == v <==> Plain(v)
  {
    if Plain(v) { PlainStays(digest, v); }
    TrimmedIsPlain(v);
  }

  lemma PlainStays(digest: string -> string, v: string)
    requires Plain(v)
    ensures SafeName(digest, v) == v
  {
    assert v[0] in v && v[|v| - 1] in v;
    StripFixesStripped(v);
    CollapseKeepsSafe(v, false);
  }

  function Trimmed(v: string): string {
    TrimRight(TrimLeft(Collapse(Strip(v), false)))
  }

  /** What is left of a name is no longer than the name, and plain if it is short and not empty. */
  lemma TrimmedIsPlain(v: string)
    ensures |Trimmed(v)| <= |v|
    ensures 1 <= |Trimmed(v)| <= MAX_LENGTH ==> Plain(Trimmed(v))
  {
    var _, _ := StripCuts(v);
    var left := TrimLeft(Collapse(Strip(v), false));
    CollapseIsSafe(Strip(v), false);
    TrimLeftTrims(Collapse(Strip(v), false));
    TrimRightTrims(left);
  }

  /** Plain names never share a lock file. */
  lemma PlainNamesNeverMeet(digest: string -> string, a: string, b: string)
    requires forall x :: |digest(x)| == DIGEST_LENGTH
    requires Plain(a) && Plain(b)
    ensures SafeName(digest, a) == SafeName(digest, b) <==> a == b
  {
    SafeNameFixesPlain(digest, a);
    SafeNameFixesPlain(digest, b);
  }

  /** A digest in hexadecimal. */
  ghost predicate HexDigest(digest: string -> string) {
    forall x :: |digest(x)| == DIGEST_LENGTH && forall c :: c in digest(x) ==> IsSafe(c) && c != '_'
  }

  /** Every name has a plain safe form, of at most 180 characters, and that is its own safe form. */
  lemma SafeNameIsPlain(digest: string -> string, v: string)
    requires HexDigest(digest)
    ensures Plain(SafeName(digest, v)) && SafeName(digest, SafeName(digest, v)) == SafeName(digest, v)
    ensures |SafeName(digest, v)| <= 180
  {
    var trimmed := Trimmed(v);
    var name := SafeName(digest, v);
    TrimmedIsSafe(v);
    if |trimmed| > MAX_LENGTH {
      var d := digest(Strip(v));
      assert name == trimmed[..163] + "_" + d;
      assert name[0] == trimmed[0] && name[|name| - 1] == d[15] && d[15] in d;
    }
    assert Plain(name);
    PlainStays(digest, name);
  }

  lemma TrimmedIsSafe(v: string)
    ensures forall c :: c in Trimmed(v) ==> IsSafe(c)
    ensures Trimmed(v) != "" ==> Trimmed(v)[0] != '_' && Trimmed(v)[|Trimmed(v)| - 1] != '_'
  {
    CollapseIsSafe(Strip(v), false);
    TrimLeftTrims(Collapse(Strip(v), false));
    TrimRightTrims(TrimLeft(Collapse(Strip(v), false)));
  }

  lemma {:induction false} CollapseAfterSafe(a: string, rest: string, inRun: bool)
    requires a != [] && forall c :: c in a ==> IsSafe(c)
    ensures Collapse(a + rest, inRun) == a + Collapse(rest, false)
  {
    assert (a + rest)[1..] == a[1..] + rest;
    if |a| > 1 {
      CollapseAfterSafe(a[1..], rest, false);
      assert a == [a[0]] + a[1..];
    } else {
      assert a[1..] + rest == rest && a == [a[0]];
    }
  }

  lemma {:induction false} CollapseOfRun(run: string, rest: string, inRun: bool)
    requires run != [] && forall c :: c in run ==> !IsSafe(c)
    ensures Collapse(run + rest, inRun) == (if inRun then "" else "_") + Collapse(rest, true)
  {
    assert (run + rest)[1..] == run[1..] + rest;
    if |run| > 1 {
      CollapseOfRun(run[1..], rest, true);
    } else {
      assert run[1..] + rest == rest;
    }
  }

  /** Any run of unsafe characters between two plain pieces becomes one underscore, so names that
      differ only in such a run share a lock file. */
  lemma RunsMeet(digest: string -> string, a: string, run: string, b: string)
    requires Plain(a) && Plain(b) && |a| + |b| < MAX_LENGTH
    requires run != "" && forall c :: c in run ==> !IsSafe(c)
    ensures SafeName(digest, a + run + b) == a + "_" + b == SafeName(digest, a + "_" + b)
  {
    var name := a + run + b;
    assert a[0] in a && b[|b| - 1] in b;
    assert name[0] == a[0] && name[|name| - 1] == b[|b| - 1];
    StripFixesStripped(name);
    CollapseAround(a, run, b);
    Glued(a, b);
    PlainStays(digest, a + "_" + b);
  }

  lemma Glued(a: string, b: string)
    requires Plain(a) && Plain(b) && |a| + |b| < MAX_LENGTH
    ensures Plain(a + "_" + b) && TrimRight(TrimLeft(a + "_" + b)) == a + "_" + b
  {
    var glued := a + "_" + b;
    assert glued[0] == a[0] && glued[|glued| - 1] == b[|b| - 1];
    forall c | c in glued ensures IsSafe(c) { assert c in a || c == '_' || c in b; }
  }

  lemma CollapseAround(a: string, run: string, b: string)
    requires Plain(a) && Plain(b) && run != "" && forall c :: c in run ==> !IsSafe(c)
    ensures Collapse(a + run + b, false) == a + "_" + b
  {
    var tail := run + b;
    assert a + run + b == a + tail;
    CollapseAfterSafe(a, tail, false);
    assert Collapse(tail, false) == "_" + b by {
      CollapseOfRun(run, b, false);
      CollapseKeepsSafe(b, true);
    }
    assert a + ("_" + b) == a + "_" + b;
  }

  /** A name without a safe character is called `default`. */
  lemma NothingSafe(digest: string -> string, run: string)
    requires forall c :: c in run ==> !IsSafe(c)
    ensures SafeName(digest, run) == "default"
  {
    var from, to := StripCuts(run);
    var raw := Strip(run);
    assert forall c :: c in raw ==> c in run;
    if raw != "" {
      CollapseOfRun(raw, "", false);
      assert raw + "" == raw;
      assert Collapse(raw, false) == "_";
      assert TrimLeft("_") == TrimLeft("_"[1..]) == "";
    }
  }

  /** Two ids the deployment accepts as different spaces, one name. */
  lemma DotAndUnderscoreMeet(digest: string -> string)
    ensures Audience.SafeId("a.b") && Audience.SafeId("a_b")
    ensures SafeName(digest, "a.b") == SafeName(digest, "a_b") == "a_b"
  {
    StripFixesStripped("a.b");
    StripFixesStripped("a_b");
    var tail := ".b";
    assert "a.b"[1..] == tail && tail[1..] == "b" && "a_b"[1..] == "_b" && "_b"[1..] == "b" && "b"[1..] == "";
    assert Collapse("b", true) == "b" && Collapse("b", false) == "b";
    assert Collapse("a.b", false) == "a_b" && Collapse("a_b", false) == "a_b";
  }
}
