/** Which stored names a phrase is about.

    The rule is "the name, or its tail after a type prefix, occurs in the phrase". The store answers
    it by looking the phrase's substrings up in chunks, each with its own LIMIT. */
module EntityMatching {
  import opened Text
  import opened Ranking
  import opened KnowledgeGraph

  const MAX_MATCHABLE_NAME_LENGTH: nat := 64
  const LOOKUP_CHUNK: nat := 900

  const LONGEST_FIRST: (string, string) -> bool := (a: string, b: string) => |a| >= |b|

  /** The rule in the port's own words. */
  predicate NameAppearsIn(name: string, query: string) {
    if name == "" then false
    else if Occurs(name, query) then true
    else Tail(name).Some? && Tail(name).value != "" && Occurs(Tail(name).value, query)
  }

  // ---- substrings ----------------------------------------------------------

  function SubstringsOf(text: string, maxLength: nat): set<string> {
    set size, start | 1 <= size <= Min(maxLength, |text|) && 0 <= start <= |text| - size :: Window(text, start, size)
  }

  /** Enumerating windows finds every short non-empty piece that occurs, and nothing else. */
  lemma SubstringsAreOccurrences(text: string, maxLength: nat, piece: string)
    ensures piece in SubstringsOf(text, maxLength) <==> piece != "" && |piece| <= maxLength && Occurs(piece, text)
  {
    if piece != "" && |piece| <= maxLength && Occurs(piece, text) {
      var i :| 0 <= i <= |text| && OccursAt(piece, text, i);
      assert Window(text, i, |piece|) in SubstringsOf(text, maxLength);
    }
    if piece in SubstringsOf(text, maxLength) {
      var size, start :| 1 <= size <= Min(maxLength, |text|) && 0 <= start <= |text| - size && Window(text, start, size) == piece;
      assert OccursAt(piece, text, start);
    }
  }

  /** The candidate keys, longest first. */
  method Substrings(text: string, maxLength: nat) returns (pieces: seq<string>)
    ensures NoDuplicates(pieces) && Ordered(LONGEST_FIRST, pieces)
    ensures forall piece :: piece in pieces <==> piece != "" && |piece| <= maxLength && Occurs(piece, text)
  {
    var all := SubstringsOf(text, maxLength);
    pieces := SelectTop(LONGEST_FIRST, all, |all|);
    TopOfAll(LONGEST_FIRST, all, |all|, pieces);
    forall piece ensures piece in pieces <==> piece != "" && |piece| <= maxLength && Occurs(piece, text) {
      SubstringsAreOccurrences(text, maxLength, piece);
      assert piece in pieces <==> piece in ToSet(pieces);
    }
  }

  // ---- looking keys up -----------------------------------------------------

  /** The two canonical look-ups: the whole name, or the tail after its first colon. */
  datatype Strategy = WholeName | TailOfName

  function LookupKey(strategy: Strategy, name: string): Option<string> {
    match strategy
    case WholeName => if name != "" then Some(name) else None
    case TailOfName => Tail(name)
  }

  /** The WHERE clause of a look-up over some keys. */
  function Hits(strategy: Strategy, names: set<string>, keys: seq<string>): set<string> {
    set name | name in names && LookupKey(strategy, name).Some? && LookupKey(strategy, name).value in keys
  }

  /** One look-up, in chunks that are each cut at `cap`. The rows are all hits, longest first,
      without duplicates, and whatever the cuts lost is beaten by `cap` rows that were kept. */
  method LookupNames(strategy: Strategy, names: set<string>, pieces: seq<string>, cap: nat) returns (rows: seq<string>)
    requires NoDuplicates(pieces)
    ensures NoDuplicates(rows) && Ordered(LONGEST_FIRST, rows)
    ensures Covers(LONGEST_FIRST, Hits(strategy, names, pieces), cap, ToSet(rows))
  {
    var found: seq<string> := [];
    var start := 0;
    assert Hits(strategy, names, pieces[..0]) == {};
    while start < |pieces|
      invariant start <= |pieces|
      invariant NoDuplicates(found)
      invariant Covers(LONGEST_FIRST, Hits(strategy, names, pieces[..start]), cap, ToSet(found))
    {
      var stop := Min(start + LOOKUP_CHUNK, |pieces|);
      var chunk := pieces[start..stop];
      var page := SelectTop(LONGEST_FIRST, Hits(strategy, names, chunk), cap);
      JoinPages(strategy, names, pieces, start, stop, cap, found, page);
      found := found + page;
      start := stop;
    }
    assert pieces[..|pieces|] == pieces;
    rows := SelectTop(LONGEST_FIRST, ToSet(found), |found|);
    DistinctSize(found);
    TopOfAll(LONGEST_FIRST, ToSet(found), |found|, rows);
  }

  /** Distinct keys have disjoint hits, so pages never repeat a name. */
  lemma JoinPages(strategy: Strategy, names: set<string>, pieces: seq<string>, start: nat, stop: nat, cap: nat,
                  found: seq<string>, page: seq<string>)
    requires NoDuplicates(pieces) && start <= stop <= |pieces|
    requires NoDuplicates(found) && Covers(LONGEST_FIRST, Hits(strategy, names, pieces[..start]), cap, ToSet(found))
    requires IsTop(LONGEST_FIRST, Hits(strategy, names, pieces[start..stop]), cap, page)
    ensures NoDuplicates(found + page)
    ensures Covers(LONGEST_FIRST, Hits(strategy, names, pieces[..stop]), cap, ToSet(found + page))
  {
    var before, here := Hits(strategy, names, pieces[..start]), Hits(strategy, names, pieces[start..stop]);
    TopCovers(LONGEST_FIRST, here, cap, page);
    CoversUnion(LONGEST_FIRST, before, here, cap, ToSet(found), ToSet(page));
    DistinctSlices(pieces, start, stop);
    HitsOfSlices(strategy, names, pieces, start, stop);
    ConcatDisjoint(found, page);
  }

  /** Distinct keys have distinct hits. */
  lemma HitsOfSlices(strategy: Strategy, names: set<string>, pieces: seq<string>, start: nat, stop: nat)
    requires start <= stop <= |pieces| && ToSet(pieces[..start]) !! ToSet(pieces[start..stop])
    ensures Hits(strategy, names, pieces[..start]) !! Hits(strategy, names, pieces[start..stop])
    ensures Hits(strategy, names, pieces[..stop]) == Hits(strategy, names, pieces[..start]) + Hits(strategy, names, pieces[start..stop])
  {
    assert pieces[..stop] == pieces[..start] + pieces[start..stop];
    forall key ensures !(key in pieces[..start] && key in pieces[start..stop]) {
      assert key in pieces[..start] ==> key in ToSet(pieces[..start]);
      assert key in pieces[start..stop] ==> key in ToSet(pieces[start..stop]);
    }
  }

  // ---- the canonical answer ------------------------------------------------

  /** Names the seeks can find for a text: by the whole name and by the tail. */
  function Whole(names: set<string>, text: string): set<string> {
    set name | name in names && name != "" && |name| <= MAX_MATCHABLE_NAME_LENGTH && Occurs(name, text)
  }

  function ByTail(names: set<string>, text: string): set<string> {
    set name | name in names && Tail(name).Some? && Tail(name).value != ""
               && |Tail(name).value| <= MAX_MATCHABLE_NAME_LENGTH && Occurs(Tail(name).value, text)
  }

  /** The first `cap` of: names that occur whole, longest first, then names that only their tail
      matches, longest first. */
  ghost predicate CanonicalAnswer(names: set<string>, text: string, cap: nat, answer: seq<string>) {
    WholeThenTails(Whole(names, text), ByTail(names, text), cap, answer)
  }

  ghost predicate WholeThenTails(whole: set<string>, tails: set<string>, cap: nat, answer: seq<string>) {
    var w := Min(cap, |whole|);
    && |answer| >= w
    && IsTop(LONGEST_FIRST, whole, cap, answer[..w])
    && IsTop(LONGEST_FIRST, tails - whole, cap - w, answer[w..])
  }

  /** What a caller may rely on: no name twice, never more than `cap`, only names the rule accepts,
      and when the cap is not reached every accepted name whose deciding piece is short enough. */
  lemma CanonicalAnswerComplete(names: set<string>, text: string, cap: nat, answer: seq<string>)
    requires CanonicalAnswer(names, text, cap, answer)
    ensures NoDuplicates(answer) && |answer| <= cap
    ensures forall name :: name in answer ==> name in names && NameAppearsIn(name, text)
    ensures |answer| < cap ==> forall name ::
      name in answer <==> name in names && NameAppearsIn(name, text) && |DecidingPiece(name)| <= MAX_MATCHABLE_NAME_LENGTH
  {
    AnswerMembers(Whole(names, text), ByTail(names, text), cap, answer);
    forall name ensures name in Whole(names, text) + ByTail(names, text)
                   <==> name in names && NameAppearsIn(name, text) && |DecidingPiece(name)| <= MAX_MATCHABLE_NAME_LENGTH {
      SeekableIff(names, text, name);
    }
    assert forall name :: name in answer <==> name in ToSet(answer);
  }

  lemma AnswerMembers(whole: set<string>, tails: set<string>, cap: nat, answer: seq<string>)
    requires WholeThenTails(whole, tails, cap, answer)
    ensures NoDuplicates(answer) && |answer| <= cap && ToSet(answer) <= whole + tails
    ensures |answer| < cap ==> ToSet(answer) == whole + tails
  {
    var w := Min(cap, |whole|);
    var a, b := answer[..w], answer[w..];
    assert answer == a + b;
    ConcatDisjoint(a, b);
    if |answer| < cap {
      TopOfAll(LONGEST_FIRST, whole, cap, a);
      TopOfAll(LONGEST_FIRST, tails - whole, cap - w, b);
    }
  }

  /** The canonical part of matching a phrase against the entity table. */
  method MatchEntities(g: Graph, query: string, cap: int) returns (answer: seq<string>)
    ensures cap <= 0 ==> answer == []
    ensures cap > 0 ==> CanonicalAnswer(g.entities.Values, Strip(query), cap, answer)
  {
    var text := Strip(query);
    if text == "" || cap <= 0 {
      assert Whole(g.entities.Values, "") == {} && ByTail(g.entities.Values, "") == {};
      return [];
    }
    answer := MatchCanonical(g.entities.Values, text, cap);
  }

  method MatchCanonical(names: set<string>, text: string, cap: nat) returns (answer: seq<string>)
    ensures CanonicalAnswer(names, text, cap, answer)
  {
    var pieces := Substrings(text, MAX_MATCHABLE_NAME_LENGTH);
    HitsAreBounded(names, text, pieces);
    var found := LookupNames(WholeName, names, pieces, cap);
    if |found| >= cap {
      WholeNamesFill(Whole(names, text), ByTail(names, text), cap, found);
      return found[..cap];
    }
    var rows := LookupNames(TailOfName, names, pieces, cap);
    var unseen := Unseen(rows, ToSet(found));
    TailsComplete(Whole(names, text), ByTail(names, text), cap, found, rows, unseen);
    answer := (found + unseen)[..Min(cap, |found + unseen|)];
  }

  lemma WholeNamesFill(whole: set<string>, tails: set<string>, cap: nat, found: seq<string>)
    requires NoDuplicates(found) && Ordered(LONGEST_FIRST, found) && |found| >= cap
    requires Covers(LONGEST_FIRST, whole, cap, ToSet(found))
    ensures WholeThenTails(whole, tails, cap, found[..cap])
  {
    FirstOfCover(whole, cap, found, cap);
    DistinctSize(found);
    SubsetSize(ToSet(found), whole);
    assert found[..cap][..cap] == found[..cap];
    assert IsTop(LONGEST_FIRST, tails - whole, 0, []);
    assert found[..cap][cap..] == [];
  }

  lemma TailsComplete(whole: set<string>, tails: set<string>, cap: nat, found: seq<string>, rows: seq<string>, unseen: seq<string>)
    requires NoDuplicates(found) && Ordered(LONGEST_FIRST, found) && |found| < cap
    requires Covers(LONGEST_FIRST, whole, cap, ToSet(found))
    requires NoDuplicates(rows) && Covers(LONGEST_FIRST, tails, cap, ToSet(rows))
    requires NoDuplicates(unseen) && Ordered(LONGEST_FIRST, unseen) && ToSet(unseen) == ToSet(rows) - ToSet(found)
    ensures WholeThenTails(whole, tails, cap, (found + unseen)[..Min(cap, |found + unseen|)])
  {
    AllWholeFound(whole, cap, found);
    SubsetSize(whole * tails, whole);
    CoversWithout(LONGEST_FIRST, tails, cap, ToSet(rows), whole * tails);
    StageTwo(whole, tails, cap, found, rows, unseen);
    Assemble(whole, tails, cap, found, unseen);
  }

  lemma AllWholeFound(whole: set<string>, cap: nat, found: seq<string>)
    requires NoDuplicates(found) && Ordered(LONGEST_FIRST, found) && |found| < cap
    requires Covers(LONGEST_FIRST, whole, cap, ToSet(found))
    ensures ToSet(found) == whole && |found| == |whole| && IsTop(LONGEST_FIRST, whole, cap, found)
  {
    CoverIsAll(whole, cap, found);
    FirstOfCover(whole, cap, found, cap);
    assert found[..Min(cap, |found|)] == found;
  }

  lemma Assemble(whole: set<string>, tails: set<string>, cap: nat, found: seq<string>, unseen: seq<string>)
    requires |found| == |whole| && |found| < cap && IsTop(LONGEST_FIRST, whole, cap, found)
    requires IsTop(LONGEST_FIRST, tails - whole, cap - |found|, unseen[..Min(cap - |found|, |unseen|)])
    ensures WholeThenTails(whole, tails, cap, (found + unseen)[..Min(cap, |found + unseen|)])
  {
    var answer := (found + unseen)[..Min(cap, |found + unseen|)];
    assert answer[..|found|] == found;
    assert answer[|found|..] == unseen[..Min(cap - |found|, |unseen|)];
  }

  /** The seen-set filter of the loop that appends rows. */
  method Unseen(rows: seq<string>, seen: set<string>) returns (unseen: seq<string>)
    requires NoDuplicates(rows) && Ordered(LONGEST_FIRST, rows)
    ensures NoDuplicates(unseen) && Ordered(LONGEST_FIRST, unseen)
    ensures ToSet(unseen) == ToSet(rows) - seen
  {
    unseen := [];
    for i := 0 to |rows|
      invariant NoDuplicates(unseen) && Ordered(LONGEST_FIRST, unseen)
      invariant ToSet(unseen) == ToSet(rows[..i]) - seen
      invariant forall f, j :: f in unseen && i <= j < |rows| ==> |f| >= |rows[j]| && f != rows[j]
    {
      assert ToSet(rows[..i + 1]) == ToSet(rows[..i]) + {rows[i]};
      if rows[i] !in seen && rows[i] !in unseen {
        assert ToSet(unseen + [rows[i]]) == ToSet(unseen) + {rows[i]};
        unseen := unseen + [rows[i]];
      }
    }
    assert rows[..|rows|] == rows;
  }

  lemma HitsAreBounded(names: set<string>, text: string, pieces: seq<string>)
    requires forall piece :: piece in pieces <==> piece != "" && |piece| <= MAX_MATCHABLE_NAME_LENGTH && Occurs(piece, text)
    ensures Hits(WholeName, names, pieces) == Whole(names, text)
    ensures Hits(TailOfName, names, pieces) == ByTail(names, text)
  {
  }

  /** The two look-ups over the substrings of a text find exactly the names the rule accepts whose
      deciding piece is at most 64 characters long. */
  lemma SeeksFindTheRule(names: set<string>, text: string, pieces: seq<string>)
    requires forall piece :: piece in pieces <==> piece != "" && |piece| <= MAX_MATCHABLE_NAME_LENGTH && Occurs(piece, text)
    ensures forall name ::
      name in Hits(WholeName, names, pieces) + Hits(TailOfName, names, pieces)
      <==> name in names && NameAppearsIn(name, text) && |DecidingPiece(name)| <= MAX_MATCHABLE_NAME_LENGTH
  {
    HitsAreBounded(names, text, pieces);
    forall name ensures name in Whole(names, text) + ByTail(names, text)
                   <==> name in names && NameAppearsIn(name, text) && |DecidingPiece(name)| <= MAX_MATCHABLE_NAME_LENGTH {
      SeekableIff(names, text, name);
    }
  }

  lemma SeekableIff(names: set<string>, text: string, name: string)
    ensures name in Whole(names, text) + ByTail(names, text)
       <==> name in names && NameAppearsIn(name, text) && |DecidingPiece(name)| <= MAX_MATCHABLE_NAME_LENGTH
  {
    var piece := DecidingPiece(name);
    if Occurs(name, text) && piece != name { TailOccursToo(name, text); }
  }

  lemma CoverIsAll(pool: set<string>, cap: nat, rows: seq<string>)
    requires NoDuplicates(rows) && |rows| < cap
    requires Covers(LONGEST_FIRST, pool, cap, ToSet(rows))
    ensures ToSet(rows) == pool && |rows| == |pool|
  {
    DistinctSize(rows);
    forall x | x in pool ensures x in ToSet(rows) {
      if x !in ToSet(rows) {
        assert Beaten(LONGEST_FIRST, cap, ToSet(rows), x);
        var best :| best <= ToSet(rows) && |best| == cap && AllAbove(LONGEST_FIRST, best, x);
        SubsetSize(best, ToSet(rows));
      }
    }
  }

  /** A sorted cover, cut, is the best of the pool. */
  lemma FirstOfCover(pool: set<string>, n: nat, rows: seq<string>, m: nat)
    requires NoDuplicates(rows) && Ordered(LONGEST_FIRST, rows) && m <= n
    requires Covers(LONGEST_FIRST, pool, n, ToSet(rows))
    ensures IsTop(LONGEST_FIRST, pool, m, rows[..Min(m, |rows|)])
  {
    DistinctSize(rows);
    assert IsTop(LONGEST_FIRST, ToSet(rows), |rows|, rows);
    TopPrefix(LONGEST_FIRST, ToSet(rows), |rows|, rows, Min(m, |rows|));
    TopOfCover(LONGEST_FIRST, pool, n, ToSet(rows), m, rows[..Min(m, |rows|)]);
  }

  /** The second look-up is cut at `cap` with the names already found still in it. It loses nothing
      that belongs in the answer. */
  lemma StageTwo(whole: set<string>, tails: set<string>, cap: nat, found: seq<string>, rows: seq<string>, unseen: seq<string>)
    requires |found| < cap && |found| == |whole| && ToSet(found) == whole && |whole * tails| <= |whole|
    requires Covers(LONGEST_FIRST, tails - whole * tails, cap - |whole * tails|, ToSet(rows) - whole * tails)
    requires ToSet(rows) <= tails
    requires NoDuplicates(unseen) && Ordered(LONGEST_FIRST, unseen) && ToSet(unseen) == ToSet(rows) - ToSet(found)
    ensures IsTop(LONGEST_FIRST, tails - whole, cap - |found|, unseen[..Min(cap - |found|, |unseen|)])
  {
    assert tails - whole * tails == tails - whole;
    assert ToSet(rows) - whole * tails == ToSet(unseen);
    FirstOfCover(tails - whole, cap - |whole * tails|, unseen, cap - |found|);
  }

  // ---- the rule and its bounds ---------------------------------------------

  /** The piece of a name whose length decides whether the seeks can see it: the tail when there is
      one to match by, else the whole name. */
  function DecidingPiece(name: string): string {
    if Tail(name).Some? && Tail(name).value != "" then Tail(name).value else name
  }

  /** The seeks and the rule agree on whether a name matches, for every text, exactly when its
      deciding piece is at most 64 characters long. */
  lemma SeeksAgreeIff(names: set<string>, name: string)
    requires name in names && name != ""
    ensures (forall text :: name in Whole(names, text) + ByTail(names, text) <==> NameAppearsIn(name, text))
       <==> |DecidingPiece(name)| <= MAX_MATCHABLE_NAME_LENGTH
  {
    if |DecidingPiece(name)| <= MAX_MATCHABLE_NAME_LENGTH {
      forall text ensures name in Whole(names, text) + ByTail(names, text) <==> NameAppearsIn(name, text) {
        SeekableIff(names, text, name);
      }
    } else {
      assert OccursAt(name, name, 0);
      assert NameAppearsIn(name, name);
      SeekableIff(names, name, name);
    }
  }

  lemma TailOccursToo(name: string, text: string)
    requires Tail(name).Some? && Occurs(name, text)
    ensures Occurs(Tail(name).value, text)
  {
    var i :| 0 <= i <= |text| && OccursAt(name, text, i);
    var cut := ColonAt(name) + 1;
    assert text[i + cut..i + |name|] == text[i..i + |name|][cut..];
    assert OccursAt(Tail(name).value, text, i + cut);
  }

  /** Matching strips the query first. For a stored name that makes a difference to some query
      exactly when its tail starts with white space, as in `pet: rex`. */
  lemma StrippingTheQueryIff(name: string)
    requires name != "" && Stripped(name)
    ensures (forall query :: NameAppearsIn(name, Strip(query)) <==> NameAppearsIn(name, query))
       <==> !(Tail(name).Some? && Tail(name).value != "" && IsSpace(Tail(name).value[0]))
  {
    if Tail(name).Some? && Tail(name).value != "" && IsSpace(Tail(name).value[0]) {
      var tail := Tail(name).value;
      var from, to := StripCuts(tail);
      assert OccursAt(tail, tail, 0);
      assert NameAppearsIn(name, tail);
      assert from > 0;
      assert |Strip(tail)| < |tail| < |name|;
      assert !NameAppearsIn(name, Strip(tail));
    } else {
      forall query ensures NameAppearsIn(name, Strip(query)) <==> NameAppearsIn(name, query) {
        StrippedPieceSurvives(name, query);
        if Tail(name).Some? && Tail(name).value != "" {
          var tail := Tail(name).value;
          assert tail[|tail| - 1] == name[|name| - 1];
          StrippedPieceSurvives(tail, query);
        }
      }
    }
  }

  /** A piece without outer white space occurs in a query exactly when it occurs in the stripped one. */
  lemma StrippedPieceSurvives(piece: string, query: string)
    requires piece != "" && Stripped(piece)
    ensures Occurs(piece, query) <==> Occurs(piece, Strip(query))
  {
    var from, to := StripCuts(query);
    var inner := Strip(query);
    if Occurs(piece, query) {
      var i :| 0 <= i <= |query| && OccursAt(piece, query, i);
      assert query[i] == Window(query, i, |piece|)[0] == piece[0];
      assert query[i + |piece| - 1] == Window(query, i, |piece|)[|piece| - 1] == piece[|piece| - 1];
      assert from <= i && i + |piece| <= to;
      WindowOfSlice(query, from, to, i - from, |piece|);
      assert OccursAt(piece, inner, i - from);
    }
    if Occurs(piece, inner) {
      var i :| 0 <= i <= |inner| && OccursAt(piece, inner, i);
      WindowOfSlice(query, from, to, i, |piece|);
      assert OccursAt(piece, query, from + i);
    }
  }

  // ---- in characters -------------------------------------------------------

  /** A prefixed name on its own is the answer exactly when what follows its prefix has at most 64
      characters and occurs in the text. */
  lemma PrefixedNameFoundIff(prefix: string, rest: string, text: string, answer: seq<string>)
    requires ':' !in prefix && rest != "" && CanonicalAnswer({prefix + ":" + rest}, text, 1, answer)
    ensures answer == if |rest| <= 64 && Occurs(rest, text) then [prefix + ":" + rest] else []
  {
    var name := prefix + ":" + rest;
    TailOfPrefixed(prefix, rest);
    if Occurs(name, text) { TailOccursToo(name, text); }
    AloneFound(name, text, answer);
  }

  /** A name without a prefix is the answer exactly when it has at most 64 characters and occurs. */
  lemma PlainNameFoundIff(name: string, text: string, answer: seq<string>)
    requires ':' !in name && name != "" && CanonicalAnswer({name}, text, 1, answer)
    ensures answer == if |name| <= 64 && Occurs(name, text) then [name] else []
  {
    TailOfPrefixed(name, "");
    AloneFound(name, text, answer);
  }

  lemma AloneFound(name: string, text: string, answer: seq<string>)
    requires CanonicalAnswer({name}, text, 1, answer)
    ensures answer == if name in Whole({name}, text) + ByTail({name}, text) then [name] else []
  {
    AnswerMembers(Whole({name}, text), ByTail({name}, text), 1, answer);
    assert answer != [] ==> answer[0] in ToSet(answer);
    assert name in Whole({name}, text) + ByTail({name}, text) && |answer| < 1 ==> name in answer;
  }

  /** The first stage finds this name. */
  predicate FoundWhole(name: string, text: string) {
    1 <= |name| <= 64 && Occurs(name, text)
  }

  /** The order of an answer, in characters: names found whole come first, and of two names found in
      the same way the longer one. A name that is left out could not have come earlier. */
  lemma CanonicalAnswerOrder(names: set<string>, text: string, cap: nat, answer: seq<string>)
    requires CanonicalAnswer(names, text, cap, answer)
    ensures forall i, j :: 0 <= i < j < |answer| ==> ComesFirst(answer[i], answer[j], text)
    ensures forall name :: name in names && NameAppearsIn(name, text) && |DecidingPiece(name)| <= 64 && name !in answer ==>
      |answer| == cap && forall i :: 0 <= i < |answer| ==> ComesFirst(answer[i], name, text)
  {
    var whole, tails := Whole(names, text), ByTail(names, text);
    AnswerMembers(whole, tails, cap, answer);
    var w := Min(cap, |whole|);
    FrontAndBack(whole, tails, cap, answer);
    assert forall name :: name in names ==> (name in whole <==> FoundWhole(name, text));
    forall i, j | 0 <= i < j < |answer| ensures ComesFirst(answer[i], answer[j], text) {
      if j < w { assert LONGEST_FIRST(answer[..w][i], answer[..w][j]); }
      if w <= i { assert LONGEST_FIRST(answer[w..][i - w], answer[w..][j - w]); }
    }
    forall name | name in names && NameAppearsIn(name, text) && |DecidingPiece(name)| <= 64 && name !in answer
      ensures |answer| == cap && forall i :: 0 <= i < |answer| ==> ComesFirst(answer[i], name, text)
    {
      SeekableIff(names, text, name);
      LeftOut(whole, tails, cap, answer, name);
    }
  }

  /** `a` may stand before `b`. */
  predicate ComesFirst(a: string, b: string, text: string) {
    if FoundWhole(a, text) == FoundWhole(b, text) then |a| >= |b| else FoundWhole(a, text)
  }

  predicate StageFirst(whole: set<string>, a: string, b: string) {
    if (a in whole) == (b in whole) then |a| >= |b| else a in whole
  }

  lemma FrontAndBack(whole: set<string>, tails: set<string>, cap: nat, answer: seq<string>)
    requires WholeThenTails(whole, tails, cap, answer)
    ensures forall i :: 0 <= i < |answer| ==> if i < Min(cap, |whole|) then answer[i] in whole else answer[i] in tails - whole
  {
    var w := Min(cap, |whole|);
    forall i | 0 <= i < |answer| ensures if i < w then answer[i] in whole else answer[i] in tails - whole {
      if i < w { assert answer[..w][i] in ToSet(answer[..w]); } else { assert answer[w..][i - w] in ToSet(answer[w..]); }
    }
  }

  lemma LeftOut(whole: set<string>, tails: set<string>, cap: nat, answer: seq<string>, name: string)
    requires WholeThenTails(whole, tails, cap, answer) && name in whole + tails && name !in answer
    ensures |answer| == cap
    ensures forall i :: 0 <= i < |answer| ==> StageFirst(whole, answer[i], name)
  {
    var w := Min(cap, |whole|);
    AnswerMembers(whole, tails, cap, answer);
    FrontAndBack(whole, tails, cap, answer);
    assert name !in answer[..w] && name !in answer[w..];
    assert name !in ToSet(answer) && name !in ToSet(answer[..w]);
    if |whole| <= cap { TopOfAll(LONGEST_FIRST, whole, cap, answer[..w]); }
    forall i | 0 <= i < |answer| ensures StageFirst(whole, answer[i], name) {
      if i < w { assert name in whole ==> LONGEST_FIRST(answer[..w][i], name); }
      else { assert LONGEST_FIRST(answer[w..][i - w], name); }
    }
  }

  // ---- the answer of the rule ----------------------------------------------

  /** The names a scan accepts: those that occur whole, and those whose tail occurs. */
  function RuleWhole(names: set<string>, text: string): set<string> {
    set name | name in names && name != "" && Occurs(name, text)
  }

  function RuleTails(names: set<string>, text: string): set<string> {
    set name | name in names && Tail(name).Some? && Tail(name).value != "" && Occurs(Tail(name).value, text)
  }

  /** What a scan over all names would return: no length bound anywhere. */
  ghost predicate RuleAnswer(names: set<string>, text: string, cap: nat, answer: seq<string>) {
    WholeThenTails(RuleWhole(names, text), RuleTails(names, text), cap, answer)
  }

  /** The scan accepts a name exactly when the rule does. */
  lemma RuleAccepts(names: set<string>, text: string)
    ensures forall name :: name in RuleWhole(names, text) + RuleTails(names, text) <==> name in names && NameAppearsIn(name, text)
  {
  }

  /** With names of at most 64 characters the seeks are the scan: same names, same order, same cut. */
  lemma SeeksAreTheScan(names: set<string>, text: string, cap: nat, answer: seq<string>)
    requires forall name :: name in names ==> |name| <= MAX_MATCHABLE_NAME_LENGTH
    ensures CanonicalAnswer(names, text, cap, answer) <==> RuleAnswer(names, text, cap, answer)
  {
    assert Whole(names, text) == RuleWhole(names, text);
    assert ByTail(names, text) == RuleTails(names, text);
  }

  /** Every accepted name can be seen by the seeks, and each one that is too long to be found whole
      still comes where the scan puts it: nothing shorter is found whole, and nothing found by its
      tail alone is as long. */
  ghost predicate LongNamesKeepTheirPlace(names: set<string>, text: string) {
    && (forall m :: m in RuleWhole(names, text) + RuleTails(names, text) ==> |DecidingPiece(m)| <= MAX_MATCHABLE_NAME_LENGTH)
    && (forall n, m :: LongMatch(names, text, n) && m in RuleWhole(names, text) + RuleTails(names, text) && m != n ==>
          KeepsBehind(names, text, n, m))
  }

  predicate LongMatch(names: set<string>, text: string, n: string) {
    n in RuleWhole(names, text) && |n| > MAX_MATCHABLE_NAME_LENGTH
  }

  predicate KeepsBehind(names: set<string>, text: string, n: string, m: string) {
    if m in RuleWhole(names, text) then |m| > MAX_MATCHABLE_NAME_LENGTH else |m| < |n|
  }

  /** For a table and a text, whatever the cap: every answer of the seeks is an answer of the scan
      exactly when the long names keep their place. */
  lemma SeeksRefineScanIff(names: set<string>, text: string)
    ensures (forall cap: nat, answer :: CanonicalAnswer(names, text, cap, answer) ==> RuleAnswer(names, text, cap, answer))
       <==> LongNamesKeepTheirPlace(names, text)
  {
    if LongNamesKeepTheirPlace(names, text) {
      forall cap: nat, answer | CanonicalAnswer(names, text, cap, answer) ensures RuleAnswer(names, text, cap, answer) {
        InPlaceRefines(names, text, cap, answer);
      }
    } else {
      var cap, answer := OutOfPlaceWitness(names, text);
    }
  }

  lemma InPlaceRefines(names: set<string>, text: string, cap: nat, answer: seq<string>)
    requires LongNamesKeepTheirPlace(names, text) && CanonicalAnswer(names, text, cap, answer)
    ensures RuleAnswer(names, text, cap, answer)
  {
    SameNames(names, text);
    if n :| LongMatch(names, text, n) {
      LongFirstLayer(names, text, n);
      LayersRefine(ByTail(names, text), RuleWhole(names, text), RuleTails(names, text), cap, answer);
    } else {
      AllFound(names, text);
    }
  }

  lemma AllFound(names: set<string>, text: string)
    requires Whole(names, text) + ByTail(names, text) == RuleWhole(names, text) + RuleTails(names, text)
    requires forall n :: !LongMatch(names, text, n)
    ensures Whole(names, text) == RuleWhole(names, text)
    ensures ByTail(names, text) - Whole(names, text) == RuleTails(names, text) - RuleWhole(names, text)
  {
    forall n | n in RuleWhole(names, text) ensures n in Whole(names, text) {
      assert !LongMatch(names, text, n);
    }
  }

  lemma LongFirstLayer(names: set<string>, text: string, n: string)
    requires LongNamesKeepTheirPlace(names, text) && LongMatch(names, text, n)
    ensures Whole(names, text) == {} && ByTail(names, text) == RuleWhole(names, text) + RuleTails(names, text)
    ensures forall x, y :: x in RuleWhole(names, text) && y in RuleTails(names, text) - RuleWhole(names, text) ==> |y| < |x|
  {
    SameNames(names, text);
    NothingShortIsWhole(names, text, n);
    forall x, y | x in RuleWhole(names, text) && y in RuleTails(names, text) - RuleWhole(names, text) ensures |y| < |x| {
      assert LongMatch(names, text, x) && KeepsBehind(names, text, x, y);
    }
  }

  lemma LayersRefine(tails: set<string>, first: set<string>, second: set<string>, cap: nat, answer: seq<string>)
    requires WholeThenTails({}, tails, cap, answer) && tails == first + second
    requires forall x, y :: x in first && y in second - first ==> |y| < |x|
    ensures WholeThenTails(first, second, cap, answer)
  {
    assert answer[0..] == answer && tails - {} == first + (second - first);
    TopOfLayers(LONGEST_FIRST, first, second - first, cap, answer);
  }

  lemma SameNames(names: set<string>, text: string)
    requires forall m :: m in RuleWhole(names, text) + RuleTails(names, text) ==> |DecidingPiece(m)| <= MAX_MATCHABLE_NAME_LENGTH
    ensures Whole(names, text) + ByTail(names, text) == RuleWhole(names, text) + RuleTails(names, text)
  {
    RuleAccepts(names, text);
    forall name ensures name in Whole(names, text) + ByTail(names, text) <==> name in RuleWhole(names, text) + RuleTails(names, text) {
      SeekableIff(names, text, name);
    }
  }

  lemma NothingShortIsWhole(names: set<string>, text: string, n: string)
    requires LongNamesKeepTheirPlace(names, text) && LongMatch(names, text, n)
    ensures Whole(names, text) == {}
    ensures forall x :: x in RuleWhole(names, text) ==> LongMatch(names, text, x)
  {
    forall x | x in RuleWhole(names, text) ensures |x| > MAX_MATCHABLE_NAME_LENGTH {
      if x != n { assert KeepsBehind(names, text, n, x); }
    }
  }

  /** Otherwise some answer of the seeks is none of the scan. */
  lemma OutOfPlaceWitness(names: set<string>, text: string) returns (cap: nat, answer: seq<string>)
    requires !LongNamesKeepTheirPlace(names, text)
    ensures CanonicalAnswer(names, text, cap, answer) && !RuleAnswer(names, text, cap, answer)
  {
    cap := |Whole(names, text) + ByTail(names, text)| + |names| + 1;
    if m :| m in RuleWhole(names, text) + RuleTails(names, text) && |DecidingPiece(m)| > MAX_MATCHABLE_NAME_LENGTH {
      answer := AnswerPreferring(names, text, cap, m);
      RuleAccepts(names, text);
      SeekableIff(names, text, m);
      MissingName(names, text, cap, answer, m);
    } else {
      var n, m :| LongMatch(names, text, n) && m in RuleWhole(names, text) + RuleTails(names, text) && m != n
                  && !KeepsBehind(names, text, n, m);
      SameNames(names, text);
      answer := AnswerPreferring(names, text, cap, m);
      Misplaced(names, text, cap, answer, n, m);
    }
  }

  /** Longest first, and one name before the others of its length. */
  function Preferring(m: string): (string, string) -> bool {
    (a: string, b: string) => |a| > |b| || (|a| == |b| && (a == m || b != m))
  }

  lemma PreferringIsTotal(m: string)
    ensures TotalPreorder(Preferring(m)) && forall x, y :: Preferring(m)(x, y) ==> LONGEST_FIRST(x, y)
  {
  }

  ghost predicate Before(answer: seq<string>, m: string, n: string) {
    exists i, j :: 0 <= i < j < |answer| && answer[i] == m && answer[j] == n
  }

  /** A full answer of the seeks that prefers `m` among the names of its length. */
  lemma AnswerPreferring(names: set<string>, text: string, cap: nat, m: string) returns (answer: seq<string>)
    requires cap > |Whole(names, text) + ByTail(names, text)|
    ensures CanonicalAnswer(names, text, cap, answer) && |answer| < cap
    ensures IsTop(Preferring(m), ByTail(names, text) - Whole(names, text), cap - |Whole(names, text)|, answer[|Whole(names, text)|..])
  {
    var whole, tails := Whole(names, text), ByTail(names, text);
    PreferringIsTotal(m);
    assert whole + tails == whole + (tails - whole);
    var a := TopExists(Preferring(m), whole, cap);
    var b := TopExists(Preferring(m), tails - whole, cap - |whole|);
    TopOfFiner(LONGEST_FIRST, Preferring(m), whole, cap, a);
    TopOfFiner(LONGEST_FIRST, Preferring(m), tails - whole, cap - |whole|, b);
    answer := a + b;
    assert answer[..|whole|] == a && answer[|whole|..] == b;
  }

  lemma MissingName(names: set<string>, text: string, cap: nat, answer: seq<string>, m: string)
    requires CanonicalAnswer(names, text, cap, answer) && |answer| < cap
    requires m in RuleWhole(names, text) + RuleTails(names, text) && m !in Whole(names, text) + ByTail(names, text)
    ensures !RuleAnswer(names, text, cap, answer)
  {
    AnswerMembers(Whole(names, text), ByTail(names, text), cap, answer);
    if RuleAnswer(names, text, cap, answer) {
      AnswerMembers(RuleWhole(names, text), RuleTails(names, text), cap, answer);
    }
  }

  lemma FrontOnly(answer: seq<string>, w: nat, front: set<string>)
    requires w <= |answer| && ToSet(answer[..w]) == front
    ensures forall i :: 0 <= i < w ==> answer[i] in front
  {
    forall i | 0 <= i < w ensures answer[i] in front {
      assert answer[..w][i] in ToSet(answer[..w]);
    }
  }

  lemma BackOnly(answer: seq<string>, w: nat, back: set<string>)
    requires w <= |answer| && ToSet(answer[w..]) == back
    ensures forall i :: w <= i < |answer| ==> answer[i] in back
  {
    forall i | w <= i < |answer| ensures answer[i] in back {
      assert answer[w..][i - w] in ToSet(answer[w..]);
    }
  }

  /** A full answer: the whole matches are its front, the other tail matches its back. */
  lemma FullAnswer(whole: set<string>, tails: set<string>, cap: nat, answer: seq<string>)
    requires WholeThenTails(whole, tails, cap, answer) && |answer| < cap
    ensures |whole| <= |answer| && ToSet(answer[..|whole|]) == whole && ToSet(answer[|whole|..]) == tails - whole
    ensures Ordered(LONGEST_FIRST, answer[..|whole|])
  {
    var w := Min(cap, |whole|);
    TopOfAll(LONGEST_FIRST, whole, cap, answer[..w]);
    TopOfAll(LONGEST_FIRST, tails - whole, cap - w, answer[w..]);
  }

  /** The seeks put a whole match, or a preferred tail match that is as long, before a tail match. */
  lemma SeeksPutBefore(whole: set<string>, tails: set<string>, cap: nat, answer: seq<string>, n: string, m: string)
    requires WholeThenTails(whole, tails, cap, answer) && |answer| < cap && m != n
    requires IsTop(Preferring(m), tails - whole, cap - |whole|, answer[|whole|..])
    requires n in tails - whole && (m in whole || (m in tails - whole && |m| >= |n|))
    ensures Before(answer, m, n)
  {
    var i := PlaceOf(whole, tails, cap, answer, m);
    var j := PlaceOf(whole, tails, cap, answer, n);
    if i >= |whole| { PreferredFirst(answer[|whole|..], m, n, i - |whole|, j - |whole|); }
  }

  /** Where a name stands in a full answer. */
  lemma PlaceOf(whole: set<string>, tails: set<string>, cap: nat, answer: seq<string>, x: string) returns (i: nat)
    requires WholeThenTails(whole, tails, cap, answer) && |answer| < cap && x in whole + tails
    ensures |whole| <= |answer| && i < |answer| && answer[i] == x && (x in whole <==> i < |whole|)
  {
    FullAnswer(whole, tails, cap, answer);
    if x in whole {
      assert answer[0..|whole|] == answer[..|whole|];
      i := IndexIn(answer, 0, |whole|, x);
    } else {
      assert answer[|whole|..|answer|] == answer[|whole|..] && x in tails - whole;
      i := IndexIn(answer, |whole|, |answer|, x);
    }
  }

  lemma IndexIn(answer: seq<string>, from: nat, to: nat, x: string) returns (i: nat)
    requires from <= to <= |answer| && x in ToSet(answer[from..to])
    ensures from <= i < to && answer[i] == x
  {
    var k :| 0 <= k < to - from && answer[from..to][k] == x;
    i := from + k;
  }

  lemma PreferredFirst(rows: seq<string>, m: string, n: string, i: nat, j: nat)
    requires Ordered(Preferring(m), rows) && i < |rows| && j < |rows| && rows[i] == m && rows[j] == n
    requires m != n && |m| >= |n|
    ensures i < j
  {
    assert !Preferring(m)(n, m);
    assert forall k :: j < k < |rows| ==> Preferring(m)(rows[j], rows[k]);
  }

  /** The scan puts a long whole match before shorter whole matches and before all others. */
  lemma ScanPutsAfter(whole: set<string>, tails: set<string>, cap: nat, answer: seq<string>, n: string, m: string)
    requires WholeThenTails(whole, tails, cap, answer) && |answer| < cap && NoDuplicates(answer)
    requires n in whole && (m !in whole || |m| < |n|)
    ensures !Before(answer, m, n)
  {
    var w := |whole|;
    FullAnswer(whole, tails, cap, answer);
    FrontOnly(answer, w, whole);
    BackOnly(answer, w, tails - whole);
    var front := answer[..w];
    forall i, j | 0 <= i < j < |answer| && answer[j] == n ensures answer[i] != m {
      assert front[i] == answer[i] && front[j] == n;
      assert LONGEST_FIRST(front[i], front[j]);
    }
  }

  lemma Misplaced(names: set<string>, text: string, cap: nat, answer: seq<string>, n: string, m: string)
    requires CanonicalAnswer(names, text, cap, answer) && |answer| < cap
    requires IsTop(Preferring(m), ByTail(names, text) - Whole(names, text), cap - |Whole(names, text)|, answer[|Whole(names, text)|..])
    requires Whole(names, text) + ByTail(names, text) == RuleWhole(names, text) + RuleTails(names, text)
    requires LongMatch(names, text, n) && m in RuleWhole(names, text) + RuleTails(names, text) && m != n
    requires !KeepsBehind(names, text, n, m)
    ensures !RuleAnswer(names, text, cap, answer)
  {
    SeeksPutBefore(Whole(names, text), ByTail(names, text), cap, answer, n, m);
    AnswerMembers(Whole(names, text), ByTail(names, text), cap, answer);
    if RuleAnswer(names, text, cap, answer) {
      ScanPutsAfter(RuleWhole(names, text), RuleTails(names, text), cap, answer, n, m);
    }
  }

  /** The instance behind it: a name of more than 64 characters that only its tail can find, next
      to a shorter one. With room for one, the scan returns the long name and the seeks the other. */
  lemma LongNameLosesItsPlace(long: string, other: string, text: string)
    requires |long| > MAX_MATCHABLE_NAME_LENGTH && 1 <= |other| <= MAX_MATCHABLE_NAME_LENGTH
    requires Tail(long).Some? && 1 <= |Tail(long).value| <= MAX_MATCHABLE_NAME_LENGTH
    requires Occurs(long, text) && Occurs(other, text)
    ensures |DecidingPiece(long)| <= MAX_MATCHABLE_NAME_LENGTH && |DecidingPiece(other)| <= MAX_MATCHABLE_NAME_LENGTH
    ensures CanonicalAnswer({long, other}, text, 1, [other]) && !RuleAnswer({long, other}, text, 1, [other])
    ensures RuleAnswer({long, other}, text, 1, [long]) && !CanonicalAnswer({long, other}, text, 1, [long])
  {
    SeeksReturnOther(long, other, text);
    ScanReturnsLong(long, other, text);
  }

  lemma SeeksReturnOther(long: string, other: string, text: string)
    requires |long| > MAX_MATCHABLE_NAME_LENGTH && 1 <= |other| <= MAX_MATCHABLE_NAME_LENGTH
    requires Occurs(long, text) && Occurs(other, text)
    ensures CanonicalAnswer({long, other}, text, 1, [other]) && !CanonicalAnswer({long, other}, text, 1, [long])
  {
    LongAndOther(long, other, text);
    OnlyOne({other}, ByTail({long, other}, text), other, long);
  }

  lemma ScanReturnsLong(long: string, other: string, text: string)
    requires |long| > MAX_MATCHABLE_NAME_LENGTH && 1 <= |other| <= MAX_MATCHABLE_NAME_LENGTH
    requires Occurs(long, text) && Occurs(other, text)
    ensures RuleAnswer({long, other}, text, 1, [long]) && !RuleAnswer({long, other}, text, 1, [other])
  {
    LongAndOther(long, other, text);
    OnlyOne({long, other}, RuleTails({long, other}, text), long, other);
  }

  lemma LongAndOther(long: string, other: string, text: string)
    requires |long| > MAX_MATCHABLE_NAME_LENGTH && 1 <= |other| <= MAX_MATCHABLE_NAME_LENGTH
    requires Occurs(long, text) && Occurs(other, text)
    ensures Whole({long, other}, text) == {other} && RuleWhole({long, other}, text) == {long, other}
  {
  }

  /** With room for one the longest whole match is the answer. */
  lemma OnlyOne(whole: set<string>, tails: set<string>, best: string, other: string)
    requires best in whole && best != other && forall x :: x in whole && x != best ==> |x| < |best|
    ensures WholeThenTails(whole, tails, 1, [best]) && !WholeThenTails(whole, tails, 1, [other])
  {
    SubsetSize({best}, whole);
    assert [best][..1] == [best] && [best][1..] == [] && [other][..1] == [other];
    assert [best][0] in [best] && [other][0] == other;
    assert IsTop(LONGEST_FIRST, whole, 1, [best]);
    assert !LONGEST_FIRST(other, best) || other !in whole;
  }
}
