/** Subjects of the message bus: a family and one token that encodes a space id. */
module Subjects {
  import opened Text
  import Audience

  datatype Family = Turn | Command | Sync

  function Word(family: Family): string {
    match family
    case Turn => "turn"
    case Command => "cmd"
    case Sync => "sync"
  }

  function Base(family: Family): string {
    "eidolon.memory." + Word(family)
  }

  function ValidateSpaceId(id: string): Option<string> {
    if Audience.SafeId(Strip(id)) then Some(Strip(id)) else None
  }

  // ---- base64url, sections 4 and 5 of RFC 4648 -----------------------------

  type Byte = n: nat | n < 256

  predicate InAlphabet(c: char) {
    Audience.IsAlphanumeric(c) || c == '-' || c == '_'
  }

  function Digit(n: nat): (c: char)
    requires n < 64
    ensures InAlphabet(c) && Value(c) == Some(n)
  {
    if n < 26 then ('A' as int + n) as char
    else if n < 52 then ('a' as int + n - 26) as char
    else if n < 62 then ('0' as int + n - 52) as char
    else if n == 62 then '-' else '_'
  }

  function Value(c: char): (n: Option<nat>)
    ensures n.Some? <==> InAlphabet(c)
    ensures n.Some? ==> n.value < 64
  {
    if 'A' <= c <= 'Z' then Some(c as int - 'A' as int)
    else if 'a' <= c <= 'z' then Some(c as int - 'a' as int + 26)
    else if '0' <= c <= '9' then Some(c as int - '0' as int + 52)
    else if c == '-' then Some(62) else if c == '_' then Some(63) else None
  }

  type Sextet = n: nat | n < 64

  /** Three bytes are four groups of six bits; the last group is filled up with zeros. */
  function Sextets(b: seq<Byte>): seq<Sextet> {
    if b == [] then []
    else if |b| == 1 then [b[0] / 4, b[0] % 4 * 16]
    else if |b| == 2 then [b[0] / 4, b[0] % 4 * 16 + b[1] / 16, b[1] % 16 * 4]
    else FourSextets(b[0], b[1], b[2]) + Sextets(b[3..])
  }

  function FourSextets(x: Byte, y: Byte, z: Byte): seq<Sextet> {
    [x / 4, x % 4 * 16 + y / 16, y % 16 * 4 + z / 64, z % 64]
  }

  function FirstByte(v0: Sextet, v1: Sextet): Byte {
    v0 * 4 + v1 / 16
  }

  function SecondByte(v1: Sextet, v2: Sextet): Byte {
    v1 % 16 * 16 + v2 / 4
  }

  function ThirdByte(v2: Sextet, v3: Sextet): Byte {
    v2 % 4 * 64 + v3
  }

  /** The bytes again; a lone group has no meaning. */
  function Octets(v: seq<Sextet>): Option<seq<Byte>> {
    if v == [] then Some([])
    else if |v| == 1 then None
    else if |v| == 2 then Some([FirstByte(v[0], v[1])])
    else if |v| == 3 then Some([FirstByte(v[0], v[1]), SecondByte(v[1], v[2])])
    else
      var rest := Octets(v[4..]);
      if rest.None? then None
      else Some([FirstByte(v[0], v[1]), SecondByte(v[1], v[2]), ThirdByte(v[2], v[3])] + rest.value)
  }

  function Digits(v: seq<Sextet>): (s: string)
    ensures |s| == |v| && forall c :: c in s ==> InAlphabet(c)
  {
    seq(|v|, i requires 0 <= i < |v| => Digit(v[i]))
  }

  /** The values of the digits; a foreign character has none. */
  function Values(s: string): (v: Option<seq<Sextet>>)
    ensures v.Some? ==> |v.value| == |s|
  {
    if s == [] then Some([])
    else
      var first, rest := Value(s[0]), Values(s[1..]);
      if first.None? || rest.None? then None else Some([first.value] + rest.value)
  }

  /** What the library adds so that the length is a multiple of four. */
  function Padding(bytes: nat): string {
    if bytes % 3 == 1 then "==" else if bytes % 3 == 2 then "=" else ""
  }

  function EncodePadded(b: seq<Byte>): string {
    Digits(Sextets(b)) + Padding(|b|)
  }

  /** `rstrip("=")` */
  function WithoutPadding(s: string): string {
    if s != [] && s[|s| - 1] == '=' then WithoutPadding(s[..|s| - 1]) else s
  }

  function Encode(b: seq<Byte>): string {
    WithoutPadding(EncodePadded(b))
  }

  function Decode(s: string): Option<seq<Byte>> {
    var v := Values(s);
    if v.None? then None else Octets(v.value)
  }

  /** Exactly the padding is cut off. */
  lemma EncodeUnpadded(b: seq<Byte>)
    ensures Encode(b) == Digits(Sextets(b))
  {
    var d := Digits(Sextets(b));
    if d != [] { assert d[|d| - 1] in d; }
    assert d + "" == d;
    assert (d + "=")[..|d|] == d;
    assert (d + "==")[..|d| + 1] == d + "=";
    assert WithoutPadding(d) == d && WithoutPadding(d + "=") == d;
  }

  lemma {:induction false} ValuesOfDigits(v: seq<Sextet>)
    ensures Values(Digits(v)) == Some(v)
  {
    if v != [] {
      ValuesOfDigits(v[1..]);
      assert Digits(v)[1..] == Digits(v[1..]);
      assert v == [v[0]] + v[1..];
    }
  }

  lemma ThreeBytes(a: Byte, b: Byte, c: Byte)
    ensures var v0, v1, v2, v3 := a / 4, a % 4 * 16 + b / 16, b % 16 * 4 + c / 64, c % 64;
      FirstByte(v0, v1) == a && SecondByte(v1, v2) == b && ThirdByte(v2, v3) == c
  {
  }

  lemma ThreeThenRest(x: Byte, y: Byte, z: Byte, rest: seq<Byte>)
    ensures Sextets([x, y, z] + rest) == FourSextets(x, y, z) + Sextets(rest)
  {
    var b := [x, y, z] + rest;
    assert b[0] == x && b[1] == y && b[2] == z && b[3..] == rest;
  }

  lemma OctetsOfFour(x: Byte, y: Byte, z: Byte, v: seq<Sextet>)
    requires Octets(v).Some?
    ensures Octets(FourSextets(x, y, z) + v) == Some([x, y, z] + Octets(v).value)
  {
    ThreeBytes(x, y, z);
    var f := FourSextets(x, y, z);
    var all := f + v;
    assert all[0] == f[0] && all[1] == f[1] && all[2] == f[2] && all[3] == f[3] && all[4..] == v;
  }

  lemma OctetsOfOne(x: Byte)
    ensures Octets(Sextets([x])) == Some([x])
  {
    var v0: Sextet, v1: Sextet := x / 4, x % 4 * 16;
    assert FirstByte(v0, v1) == x;
    assert Sextets([x]) == [v0, v1];
  }

  lemma OctetsOfTwo(x: Byte, y: Byte)
    ensures Octets(Sextets([x, y])) == Some([x, y])
  {
    var v0: Sextet, v1: Sextet, v2: Sextet := x / 4, x % 4 * 16 + y / 16, y % 16 * 4;
    ThreeBytes(x, y, 0);
    assert FirstByte(v0, v1) == x && SecondByte(v1, v2) == y;
    assert Sextets([x, y]) == [v0, v1, v2];
  }

  lemma {:induction false} OctetsOfSextets(b: seq<Byte>)
    ensures Octets(Sextets(b)) == Some(b)
    decreases |b|
  {
    if |b| == 1 {
      OctetsOfOne(b[0]);
      assert b == [b[0]];
    } else if |b| == 2 {
      OctetsOfTwo(b[0], b[1]);
      assert b == [b[0], b[1]];
    } else if |b| >= 3 {
      OctetsOfSextets(b[3..]);
      OctetsOfFour(b[0], b[1], b[2], Sextets(b[3..]));
      ThreeThenRest(b[0], b[1], b[2], b[3..]);
      assert b == [b[0], b[1], b[2]] + b[3..];
    }
  }

  /** The encoding loses nothing. */
  lemma DecodeEncode(b: seq<Byte>)
    ensures Decode(Encode(b)) == Some(b)
    ensures forall c :: c in Encode(b) ==> InAlphabet(c)
  {
    EncodeUnpadded(b);
    ValuesOfDigits(Sextets(b));
    OctetsOfSextets(b);
  }

  /** The digits in the order of section 5 of RFC 4648: capitals, small letters, figures, `-`, `_`. */
  lemma DigitsInOrder(n: nat)
    requires n < 63
    ensures Digit(0) == 'A' && Digit(26) == 'a' && Digit(52) == '0' && Digit(62) == '-' && Digit(63) == '_'
    ensures n !in {25, 51, 61, 62} ==> Digit(n + 1) as int == Digit(n) as int + 1
    ensures Digit(25) == 'Z' && Digit(51) == 'z' && Digit(61) == '9'
  {
  }

  /** Groups of six bits, and bytes, as one number. */
  function Number(digits: seq<nat>, base: nat): nat {
    if digits == [] then 0 else Number(digits[..|digits| - 1], base) * base + digits[|digits| - 1]
  }

  lemma NumberOfPrefix(v: seq<nat>, base: nat)
    ensures |v| == 1 ==> Number(v, base) == v[0]
    ensures |v| >= 1 ==> Number(v, base) == Number(v[..|v| - 1], base) * base + v[|v| - 1]
  {
    if |v| == 1 { assert Number(v[..0], base) == 0; }
  }

  lemma NumberOfFour(a: nat, b: nat, c: nat, d: nat, base: nat)
    ensures Number([a, b], base) == a * base + b
    ensures Number([a, b, c], base) == (a * base + b) * base + c
    ensures Number([a, b, c, d], base) == ((a * base + b) * base + c) * base + d
  {
    NumberOfPrefix([a], base);
    NumberOfPrefix([a, b], base);
    NumberOfPrefix([a, b, c], base);
    NumberOfPrefix([a, b, c, d], base);
    assert [a, b][..1] == [a] && [a, b, c][..2] == [a, b] && [a, b, c, d][..3] == [a, b, c];
  }

  /** Three bytes and their four digits are one number; one byte and two bytes are filled up with four
      and two zero bits. */
  lemma GroupsAreNumbers(x: Byte, y: Byte, z: Byte)
    ensures Number(Sextets([x]), 64) == Number([x], 256) * 16
    ensures Number(Sextets([x, y]), 64) == Number([x, y], 256) * 4
    ensures Number(Sextets([x, y, z]), 64) == Number([x, y, z], 256)
  {
    OneGroup(x);
    TwoGroup(x, y);
    ThreeGroup(x, y, z);
  }

  lemma OneGroup(x: Byte)
    ensures Number(Sextets([x]), 64) == Number([x], 256) * 16
  {
    NumberOfPrefix([x], 256);
    NumberOfFour(x / 4, x % 4 * 16, 0, 0, 64);
  }

  lemma TwoGroup(x: Byte, y: Byte)
    ensures Number(Sextets([x, y]), 64) == Number([x, y], 256) * 4
  {
    NumberOfFour(x, y, 0, 0, 256);
    var v0: nat, v1: nat, v2: nat := x / 4, x % 4 * 16 + y / 16, y % 16 * 4;
    NumberOfFour(v0, v1, v2, 0, 64);
    assert Sextets([x, y]) == [v0, v1, v2];
  }

  lemma ThreeGroup(x: Byte, y: Byte, z: Byte)
    ensures Number(Sextets([x, y, z]), 64) == Number([x, y, z], 256)
  {
    NumberOfFour(x, y, z, 0, 256);
    var v0: nat, v1: nat, v2: nat, v3: nat := x / 4, x % 4 * 16 + y / 16, y % 16 * 4 + z / 64, z % 64;
    NumberOfFour(v0, v1, v2, v3, 64);
    assert [x, y, z][3..] == [] && Sextets([x, y, z]) == [v0, v1, v2, v3];
    assert ((v0 * 64 + v1) * 64 + v2) * 64 + v3 == (x * 256 + y) * 256 + z;
  }

  /** Longer inputs are encoded three bytes at a time, in order. */
  lemma EncodedInThrees(x: Byte, y: Byte, z: Byte, rest: seq<Byte>)
    ensures Encode([x, y, z] + rest) == Encode([x, y, z]) + Encode(rest)
  {
    EncodeUnpadded([x, y, z] + rest);
    EncodeUnpadded([x, y, z]);
    EncodeUnpadded(rest);
    ThreeThenRest(x, y, z, rest);
    ThreeThenRest(x, y, z, []);
    assert [x, y, z] + [] == [x, y, z] && FourSextets(x, y, z) + Sextets([]) == FourSextets(x, y, z);
    DigitsOfConcat(FourSextets(x, y, z), Sextets(rest));
  }

  lemma DigitsOfConcat(u: seq<Sextet>, v: seq<Sextet>)
    ensures Digits(u + v) == Digits(u) + Digits(v)
  {
  }

  // ---- space ids as tokens -------------------------------------------------

  predicate Ascii(s: string) {
    forall c :: c in s ==> c as int < 128
  }

  /** An ASCII string as bytes. */
  function Bytes(s: string): (b: seq<Byte>)
    requires Ascii(s)
    ensures |b| == |s|
  {
    seq(|s|, i requires 0 <= i < |s| && s[i] in s => ByteOf(s, s[i]))
  }

  function ByteOf(s: string, c: char): (b: Byte)
    requires Ascii(s) && c in s
    ensures b == c as int
  {
    c as int
  }

  function Chars(b: seq<Byte>): string {
    seq(|b|, i requires 0 <= i < |b| => b[i] as char)
  }

  lemma CharsOfBytes(s: string)
    requires Ascii(s)
    ensures Chars(Bytes(s)) == s
  {
  }

  const TOKEN_PREFIX := "b64_"

  function Token(id: string): Option<string> {
    var valid := ValidateSpaceId(id);
    if valid.None? then None else Some(TOKEN_PREFIX + Encode(Bytes(valid.value)))
  }

  /** Reads a token back. */
  function Untoken(token: string): Option<string> {
    if !(TOKEN_PREFIX <= token) then None
    else
      var b := Decode(token[|TOKEN_PREFIX|..]);
      if b.None? then None else Some(Chars(b.value))
  }

  predicate IsToken(s: string) {
    s != "" && forall c :: c in s ==> InAlphabet(c)
  }

  /** The token of an id can be read back, and holds no separator and no wildcard. Ids that are
      refused have no token. */
  lemma TokenIsReversible(id: string)
    ensures Token(id).None? <==> !Audience.SafeId(Strip(id))
    ensures Token(id).Some? ==> Untoken(Token(id).value) == Some(Strip(id)) && IsToken(Token(id).value)
  {
    if Token(id).Some? {
      var valid := Strip(id);
      DecodeEncode(Bytes(valid));
      CharsOfBytes(valid);
      assert Token(id).value[|TOKEN_PREFIX|..] == Encode(Bytes(valid));
    }
  }

  // ---- subjects and patterns -----------------------------------------------

  function Subject(family: Family, id: string): Option<string> {
    var token := Token(id);
    if token.None? then None else Some(Base(family) + "." + token.value)
  }

  function Pattern(family: Family): string {
    Base(family) + ".*"
  }

  /** Subjects and patterns in full. */
  lemma SubjectsInFull(id: string)
    requires Audience.SafeId(Strip(id))
    ensures var token := "b64_" + Digits(Sextets(Bytes(Strip(id))));
      && Subject(Turn, id) == Some("eidolon.memory.turn." + token) && Pattern(Turn) == "eidolon.memory.turn.*"
      && Subject(Command, id) == Some("eidolon.memory.cmd." + token) && Pattern(Command) == "eidolon.memory.cmd.*"
      && Subject(Sync, id) == Some("eidolon.memory.sync." + token) && Pattern(Sync) == "eidolon.memory.sync.*"
  {
    EncodeUnpadded(Bytes(Strip(id)));
    assert "eidolon.memory." + "turn" + "." == "eidolon.memory.turn.";
    assert "eidolon.memory." + "cmd" + "." == "eidolon.memory.cmd.";
    assert "eidolon.memory." + "sync" + "." == "eidolon.memory.sync.";
    assert "eidolon.memory.turn" + ".*" == "eidolon.memory.turn.*";
    assert "eidolon.memory.cmd" + ".*" == "eidolon.memory.cmd.*";
    assert "eidolon.memory.sync" + ".*" == "eidolon.memory.sync.*";
  }

  /** The tokens of a subject. */
  function Tokens(s: string): (r: seq<string>)
    ensures |r| >= 1
  {
    if s == [] then [[]]
    else
      var r := Tokens(s[1..]);
      if s[0] == '.' then [[]] + r else [[s[0]] + r[0]] + r[1..]
  }

  /** `*` stands for exactly one token. */
  predicate Matches(pattern: string, subject: string) {
    var p, s := Tokens(pattern), Tokens(subject);
    |p| == |s| && forall i :: 0 <= i < |p| ==> if p[i] == "*" then s[i] != "" else p[i] == s[i]
  }

  lemma {:induction false} TokensOfJoined(a: string, b: string)
    requires '.' !in a
    ensures Tokens(a + "." + b) == [a] + Tokens(b)
  {
    var s := a + "." + b;
    if a == [] {
      assert s[1..] == b;
    } else {
      TokensOfJoined(a[1..], b);
      assert s[1..] == a[1..] + "." + b;
      assert a == [a[0]] + a[1..];
    }
  }

  lemma {:induction false} OneToken(a: string)
    requires '.' !in a
    ensures Tokens(a) == [a]
  {
    if a != [] {
      OneToken(a[1..]);
      assert a == [a[0]] + a[1..];
    }
  }

  lemma {:induction false} TokensDetermine(s: string, t: string)
    requires Tokens(s) == Tokens(t)
    ensures s == t
    decreases |s|
  {
    if s == [] || t == [] {
      EmptyHasOneToken(s);
      EmptyHasOneToken(t);
    } else {
      TokensDetermine(s[1..], t[1..]) by { HeadsAgree(s, t); }
      HeadsAgree(s, t);
      assert s == [s[0]] + s[1..] && t == [t[0]] + t[1..];
    }
  }

  lemma EmptyHasOneToken(s: string)
    ensures Tokens(s) == [[]] <==> s == []
  {
    if s != [] && s[0] == '.' { assert Tokens(s)[1..] == Tokens(s[1..]); }
  }

  lemma HeadsAgree(s: string, t: string)
    requires s != [] && t != [] && Tokens(s) == Tokens(t)
    ensures s[0] == t[0] && Tokens(s[1..]) == Tokens(t[1..])
  {
    var p, q := Tokens(s[1..]), Tokens(t[1..]);
    if s[0] == '.' {
      assert Tokens(s)[0] == [] && t[0] == '.';
      assert Tokens(s)[1..] == p && Tokens(t)[1..] == q;
    } else {
      assert Tokens(s)[0] == [s[0]] + p[0];
      assert Tokens(t)[0] == (if t[0] == '.' then [] else [t[0]] + q[0]);
      assert Tokens(s)[0][0] == s[0] && Tokens(t)[0][0] == t[0];
      assert Tokens(s)[0][1..] == p[0] && Tokens(t)[0][1..] == q[0];
      assert p == [p[0]] + Tokens(s)[1..] && q == [q[0]] + Tokens(t)[1..];
    }
  }

  lemma BaseWords(family: Family, last: string)
    ensures Base(family) + "." + last == "eidolon" + "." + ("memory" + "." + (Word(family) + "." + last))
  {
    assert "eidolon.memory." == "eidolon" + "." + ("memory" + ".");
  }

  lemma FamilyTokens(family: Family, last: string)
    requires '.' !in last
    ensures Tokens(Base(family) + "." + last) == ["eidolon", "memory", Word(family), last]
  {
    var tail := Word(family) + "." + last;
    BaseWords(family, last);
    OneToken(last);
    assert '.' !in Word(family);
    TokensOfJoined(Word(family), last);
    TokensOfJoined("memory", tail);
    TokensOfJoined("eidolon", "memory" + "." + tail);
  }

  /** What a family's pattern takes: the family's base, one separator, one token that is not empty. */
  lemma PatternTakes(family: Family, subject: string)
    ensures Matches(Pattern(family), subject) <==>
      exists token :: token != "" && '.' !in token && subject == Base(family) + "." + token
  {
    assert Pattern(family) == Base(family) + "." + "*";
    FamilyTokens(family, "*");
    if Matches(Pattern(family), subject) {
      var token := Tokens(subject)[3];
      TokensHaveNoDots(subject);
      FamilyTokens(family, token);
      assert Tokens(subject) == Tokens(Base(family) + "." + token);
      TokensDetermine(subject, Base(family) + "." + token);
    }
    if token :| token != "" && '.' !in token && subject == Base(family) + "." + token {
      FamilyTokens(family, token);
    }
  }

  lemma {:induction false} TokensHaveNoDots(s: string)
    ensures forall i :: 0 <= i < |Tokens(s)| ==> '.' !in Tokens(s)[i]
  {
    if s != [] { TokensHaveNoDots(s[1..]); }
  }

  /** A subject is taken by the pattern of its own family and by no other. */
  lemma OwnPatternOnly(family: Family, other: Family, id: string)
    requires Subject(family, id).Some?
    ensures Matches(Pattern(other), Subject(family, id).value) <==> family == other
  {
    TokenIsReversible(id);
    TakenByOwnPattern(family, other, Token(id).value);
  }

  lemma TakenByOwnPattern(family: Family, other: Family, token: string)
    requires IsToken(token)
    ensures Matches(Pattern(other), Base(family) + "." + token) <==> family == other
  {
    FamilyTokens(family, token);
    FamilyTokens(other, "*");
    assert Pattern(other) == Base(other) + "." + "*";
    var p, s := ["eidolon", "memory", Word(other), "*"], ["eidolon", "memory", Word(family), token];
    assert p[2] != "*" && (p[2] == s[2] <==> family == other);
  }

  /** Equal subjects: one family, one space. */
  lemma SubjectsNeverCollide(family: Family, id: string, other: Family, id2: string)
    requires Subject(family, id).Some? && Subject(other, id2).Some?
    ensures Subject(family, id) == Subject(other, id2) <==> family == other && ValidateSpaceId(id) == ValidateSpaceId(id2)
  {
    TokenIsReversible(id);
    TokenIsReversible(id2);
    FamilyTokens(family, Token(id).value);
    FamilyTokens(other, Token(id2).value);
  }
}
