/** Audience tokens: `owner`, `companion:<id>` or `council:<id>`. */
module Audience {
  import opened Text

  const OWNER := "owner"
  const COMPANION_PREFIX := "companion:"
  const COUNCIL_PREFIX := "council:"

  predicate IsAlphanumeric(c: char) {
    'A' <= c <= 'Z' || 'a' <= c <= 'z' || '0' <= c <= '9'
  }

  /** `[A-Za-z0-9][A-Za-z0-9_.:-]{0,127}`, the alphabet of companion and of space ids. */
  predicate SafeId(s: string) {
    && 1 <= |s| <= 128
    && IsAlphanumeric(s[0])
    && forall c :: c in s ==> IsAlphanumeric(c) || c in "_.:-"
  }

  predicate StartsWith(s: string, prefix: string) {
    prefix <= s
  }

  /** The canonical token, or nothing for a token that is refused. */
  function Validate(audience: string): Option<string> {
    var value := Strip(audience);
    if value == OWNER then Some(value)
    else if StartsWith(value, COMPANION_PREFIX) then WithPrefix(COMPANION_PREFIX, value[|COMPANION_PREFIX|..])
    else if StartsWith(value, COUNCIL_PREFIX) then WithPrefix(COUNCIL_PREFIX, value[|COUNCIL_PREFIX|..])
    else None
  }

  function WithPrefix(prefix: string, id: string): Option<string> {
    if SafeId(Strip(id)) then Some(prefix + Strip(id)) else None
  }

  lemma SafeIdIsStripped(id: string)
    requires SafeId(id)
    ensures Strip(id) == id
  {
    assert id[|id| - 1] in id;
    StripFixesStripped(id);
  }

  lemma PrefixedStays(prefix: string, id: string)
    requires (prefix == COMPANION_PREFIX || prefix == COUNCIL_PREFIX) && SafeId(id)
    ensures Strip(prefix + id) == prefix + id && (prefix + id)[|prefix|..] == id
    ensures StartsWith(prefix + id, COMPANION_PREFIX) <==> prefix == COMPANION_PREFIX
    ensures StartsWith(prefix + id, prefix) && prefix + id != OWNER
  {
    assert id[|id| - 1] in id;
    assert (prefix + id)[0] == 'c' && (prefix + id)[2] == prefix[2];
    StripFixesStripped(prefix + id);
  }

  /** A token that has been accepted is accepted again as it is. */
  lemma ValidateIdempotent(audience: string)
    ensures var v := Validate(audience); v.Some? ==> Validate(v.value) == v
  {
    var value := Strip(audience);
    StripFixesStripped(OWNER);
    if value != OWNER && (StartsWith(value, COMPANION_PREFIX) || StartsWith(value, COUNCIL_PREFIX)) {
      var prefix := if StartsWith(value, COMPANION_PREFIX) then COMPANION_PREFIX else COUNCIL_PREFIX;
      var id := Strip(value[|prefix|..]);
      if SafeId(id) {
        SafeIdIsStripped(id);
        PrefixedStays(prefix, id);
      }
    }
  }

  /** The tokens, in full. */
  ghost predicate IsToken(s: string) {
    s == "owner" || (exists id :: SafeId(id) && s == "companion:" + id) || (exists id :: SafeId(id) && s == "council:" + id)
  }

  /** Exactly these tokens are accepted as they are, and whatever is accepted becomes one of them. */
  lemma AcceptedTokens(audience: string)
    ensures Validate(audience) == Some(audience) <==> IsToken(audience)
    ensures Validate(audience).Some? ==> IsToken(Validate(audience).value)
  {
    ValidateIdempotent(audience);
    var value := Strip(audience);
    if Validate(audience).Some? && value != OWNER {
      var prefix := if StartsWith(value, COMPANION_PREFIX) then COMPANION_PREFIX else COUNCIL_PREFIX;
      assert SafeId(Strip(value[|prefix|..]));
    }
    forall id | SafeId(id) ensures Strip(id) == id { SafeIdIsStripped(id); }
    if id :| SafeId(id) && audience == "companion:" + id { AcceptsPrefixed(COMPANION_PREFIX, id, id); }
    if id :| SafeId(id) && audience == "council:" + id { AcceptsPrefixed(COUNCIL_PREFIX, id, id); }
    StripFixesStripped(OWNER);
  }

  /** White space around a token and after its prefix does not count. */
  lemma AcceptsPrefixed(prefix: string, given: string, id: string)
    requires (prefix == "companion:" || prefix == "council:") && SafeId(id) && Strip(given) == id
    ensures forall audience :: Strip(audience) == prefix + given ==> Validate(audience) == Some(prefix + id)
    ensures Validate(prefix + id) == Some(prefix + id)
  {
    SafeIdIsStripped(id);
    PrefixedStays(prefix, id);
    assert (prefix + given)[|prefix|..] == given;
    assert (prefix + given)[2] == prefix[2];
  }

  /** An id has between 1 and 128 characters. */
  lemma IdLengths(n: nat)
    ensures SafeId(seq(n, i => 'x')) <==> 1 <= n <= 128
  {
    var s := seq(n, i => 'x');
    assert forall c :: c in s ==> c == 'x';
  }
}
