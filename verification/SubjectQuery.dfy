/** Statements about several subjects, each with its own allowance: `query_subjects`. One ordered
    and cut branch for each name stands in for ranking every subject's rows in one window. */
module SubjectQuery {
  import opened Text
  import opened Ranking
  import opened KnowledgeGraph
  import opened RelevanceQuery

  /** The subjects asked about; blank names are skipped, and two names may be one subject. */
  function Asked(env: Env, names: seq<string>): seq<string> {
    if names == [] then []
    else
      var front, name := Asked(env, names[..|names| - 1]), names[|names| - 1];
      if Strip(name) == "" then front else front + [EntityId(env, name)]
  }

  /** The names that ask about a subject. */
  function Asking(env: Env, names: seq<string>, subject: string): set<int> {
    set i | 0 <= i < |names| && Strip(names[i]) != "" && EntityId(env, names[i]) == subject
  }

  /** A subject is asked about as many times as it has names that are not blank, in their order. */
  lemma {:induction false} AskedOncePerName(env: Env, names: seq<string>, subject: string)
    ensures Times(Asked(env, names), subject) == |Asking(env, names, subject)|
    decreases |names|
  {
    if names != [] {
      var front := names[..|names| - 1];
      AskedOncePerName(env, front, subject);
      OneNameMore(env, names, subject);
      if Strip(names[|names| - 1]) != "" { TimesOfAppend(Asked(env, front), EntityId(env, names[|names| - 1]), subject); }
    }
  }

  lemma TimesOfAppend(asked: seq<string>, one: string, subject: string)
    ensures Times(asked + [one], subject) == Times(asked, subject) + if one == subject then 1 else 0
  {
    assert (asked + [one])[..|asked|] == asked;
  }

  lemma OneNameMore(env: Env, names: seq<string>, subject: string)
    requires names != []
    ensures var n := |names| - 1;
      |Asking(env, names, subject)| == |Asking(env, names[..n], subject)|
        + if Strip(names[n]) != "" && EntityId(env, names[n]) == subject then 1 else 0
  {
    var n := |names| - 1;
    var asks := Strip(names[n]) != "" && EntityId(env, names[n]) == subject;
    assert Asking(env, names, subject) == Asking(env, names[..n], subject) + if asks then {n} else {};
  }

  lemma {:induction false} AskedInOrder(env: Env, a: seq<string>, b: seq<string>)
    ensures Asked(env, a + b) == Asked(env, a) + Asked(env, b)
    decreases |b|
  {
    if b == [] {
      assert a + b == a;
    } else {
      assert (a + b)[..|a + b| - 1] == a + b[..|b| - 1];
      AskedInOrder(env, a, b[..|b| - 1]);
    }
  }

  datatype Question = Question(moment: string, audiences: seq<string>, includeSensitive: bool)

  function Pool(g: Graph, q: Question, subject: string): set<string> {
    About(g, subject, Outgoing, q.moment, q.audiences, q.includeSensitive)
  }

  function Flatten(blocks: seq<seq<string>>): seq<string> {
    if blocks == [] then [] else Flatten(blocks[..|blocks| - 1]) + blocks[|blocks| - 1]
  }

  /** One block for each subject asked about: its best `n` rows, whatever the others have. */
  ghost predicate IsBlocks(g: Graph, q: Question, asked: seq<string>, n: nat, blocks: seq<seq<string>>) {
    |blocks| == |asked| && forall i :: 0 <= i < |asked| ==> IsTop(ByRelevance(g), Pool(g, q, asked[i]), n, blocks[i])
  }

  ghost predicate IsAnswer(g: Graph, q: Question, asked: seq<string>, n: nat, rows: seq<string>) {
    exists blocks :: IsBlocks(g, q, asked, n, blocks) && rows == Flatten(blocks)
  }

  method QuerySubjects(env: Env, g: Graph, names: seq<string>, q: Question, limit: int) returns (rows: seq<string>)
    ensures IsAnswer(g, q, Asked(env, names), if limit < 0 then 0 else limit, rows)
  {
    var n: nat := if limit < 0 then 0 else limit;
    var asked := Asked(env, names);
    if names == [] || q.audiences == [] || limit <= 0 {
      NothingToShow(g, q, asked, n);
      return [];
    }
    rows := [];
    ghost var blocks: seq<seq<string>> := [];
    RelevanceIsPreorder(g);
    for i := 0 to |asked|
      invariant IsBlocks(g, q, asked[..i], n, blocks) && rows == Flatten(blocks)
    {
      var block := SelectTop(ByRelevance(g), Pool(g, q, asked[i]), n);
      assert (blocks + [block])[..|blocks|] == blocks;
      assert asked[..i + 1] == asked[..i] + [asked[i]];
      rows, blocks := rows + block, blocks + [block];
    }
    assert asked[..|asked|] == asked;
  }

  lemma NothingToShow(g: Graph, q: Question, asked: seq<string>, n: nat)
    requires asked == [] || q.audiences == [] || n == 0
    ensures IsAnswer(g, q, asked, n, [])
  {
    var blocks := seq(|asked|, i => []);
    FlattenOfEmpty(blocks);
    assert IsBlocks(g, q, asked, n, blocks);
  }

  lemma {:induction false} FlattenOfEmpty(blocks: seq<seq<string>>)
    requires forall i :: 0 <= i < |blocks| ==> blocks[i] == []
    ensures Flatten(blocks) == []
  {
    if blocks != [] { FlattenOfEmpty(blocks[..|blocks| - 1]); }
  }

  // ---- the allowance -------------------------------------------------------

  /** The rows about a subject, in their order. */
  function RowsAbout(g: Graph, rows: seq<string>, subject: string): seq<string> {
    if rows == [] then []
    else
      var front, last := RowsAbout(g, rows[..|rows| - 1], subject), rows[|rows| - 1];
      if last in g.statements && g.statements[last].subject == subject then front + [last] else front
  }

  function Times(asked: seq<string>, subject: string): nat {
    if asked == [] then 0 else Times(asked[..|asked| - 1], subject) + if asked[|asked| - 1] == subject then 1 else 0
  }

  lemma {:induction false} RowsOfConcat(g: Graph, a: seq<string>, b: seq<string>, subject: string)
    ensures RowsAbout(g, a + b, subject) == RowsAbout(g, a, subject) + RowsAbout(g, b, subject)
    decreases |b|
  {
    if b == [] {
      assert a + b == a;
    } else {
      assert (a + b)[..|a + b| - 1] == a + b[..|b| - 1];
      RowsOfConcat(g, a, b[..|b| - 1], subject);
    }
  }

  lemma {:induction false} RowsOfBlock(g: Graph, q: Question, owner: string, block: seq<string>, subject: string)
    requires ToSet(block) <= Pool(g, q, owner)
    ensures RowsAbout(g, block, subject) == if owner == subject then block else []
    decreases |block|
  {
    if block != [] {
      var front := block[..|block| - 1];
      assert block[|block| - 1] in ToSet(block);
      assert ToSet(front) <= ToSet(block);
      assert block == front + [block[|block| - 1]];
      RowsOfBlock(g, q, owner, front, subject);
    }
  }

  lemma LastBlock(g: Graph, q: Question, asked: seq<string>, n: nat, blocks: seq<seq<string>>, subject: string)
    requires IsBlocks(g, q, asked, n, blocks) && asked != []
    ensures var k := |asked| - 1;
      && IsBlocks(g, q, asked[..k], n, blocks[..k])
      && RowsAbout(g, Flatten(blocks), subject)
         == RowsAbout(g, Flatten(blocks[..k]), subject) + (if asked[k] == subject then blocks[k] else [])
  {
    var k := |asked| - 1;
    RowsOfConcat(g, Flatten(blocks[..k]), blocks[k], subject);
    RowsOfBlock(g, q, asked[k], blocks[k], subject);
  }

  /** No subject is starved by another and none is overserved, unless it is asked about under
      several names: it then gets its allowance once for each name. */
  lemma {:induction false} AllowancePerName(g: Graph, q: Question, asked: seq<string>, n: nat, blocks: seq<seq<string>>, subject: string)
    requires IsBlocks(g, q, asked, n, blocks)
    ensures |RowsAbout(g, Flatten(blocks), subject)| == Times(asked, subject) * Min(n, |Pool(g, q, subject)|)
    decreases |asked|
  {
    if asked != [] {
      var k := |asked| - 1;
      LastBlock(g, q, asked, n, blocks, subject);
      AllowancePerName(g, q, asked[..k], n, blocks[..k], subject);
      OneMoreName(Times(asked[..k], subject), if asked[k] == subject then 1 else 0, Min(n, |Pool(g, q, subject)|));
    }
  }

  lemma OneMoreName(times: nat, more: nat, share: nat)
    ensures (times + more) * share == times * share + more * share
  {
  }

  /** A subject named once has its block, row for row. */
  lemma {:induction false} NamedOnce(g: Graph, q: Question, asked: seq<string>, n: nat, blocks: seq<seq<string>>, subject: string)
    requires IsBlocks(g, q, asked, n, blocks) && Times(asked, subject) == 1
    ensures IsTop(ByRelevance(g), Pool(g, q, subject), n, RowsAbout(g, Flatten(blocks), subject))
    decreases |asked|
  {
    var k := |asked| - 1;
    LastBlock(g, q, asked, n, blocks, subject);
    if asked[k] == subject {
      AllowancePerName(g, q, asked[..k], n, blocks[..k], subject);
      assert RowsAbout(g, Flatten(blocks[..k]), subject) == [];
      assert [] + blocks[k] == blocks[k];
    } else {
      NamedOnce(g, q, asked[..k], n, blocks[..k], subject);
    }
  }

  /** Every subject asked about has exactly its window: its best `n` rows, in order, each once. */
  ghost predicate IsWindowed(g: Graph, q: Question, asked: seq<string>, n: nat, rows: seq<string>) {
    forall subject :: subject in asked ==> HasWindow(g, q, n, rows, subject)
  }

  ghost predicate HasWindow(g: Graph, q: Question, n: nat, rows: seq<string>, subject: string) {
    IsTop(ByRelevance(g), Pool(g, q, subject), n, RowsAbout(g, rows, subject))
  }

  /** The branches do what ranking each subject's rows in one window would do exactly when no
      subject with something to show is named twice. */
  lemma WindowedIff(g: Graph, q: Question, asked: seq<string>, n: nat, rows: seq<string>)
    requires n > 0 && IsAnswer(g, q, asked, n, rows)
    ensures IsWindowed(g, q, asked, n, rows) <==>
      forall subject :: subject in asked && Times(asked, subject) > 1 ==> Pool(g, q, subject) == {}
  {
    var blocks :| IsBlocks(g, q, asked, n, blocks) && rows == Flatten(blocks);
    forall subject | subject in asked
      ensures HasWindow(g, q, n, rows, subject) <==> (Times(asked, subject) > 1 ==> Pool(g, q, subject) == {})
    {
      AskedCounts(asked, subject);
      WindowIff(g, q, asked, n, blocks, subject);
    }
  }

  lemma WindowIff(g: Graph, q: Question, asked: seq<string>, n: nat, blocks: seq<seq<string>>, subject: string)
    requires n > 0 && IsBlocks(g, q, asked, n, blocks) && Times(asked, subject) > 0
    ensures HasWindow(g, q, n, Flatten(blocks), subject) <==> (Times(asked, subject) > 1 ==> Pool(g, q, subject) == {})
  {
    var share := Min(n, |Pool(g, q, subject)|);
    AllowancePerName(g, q, asked, n, blocks, subject);
    OneShareIff(Times(asked, subject), share);
    if Times(asked, subject) == 1 {
      NamedOnce(g, q, asked, n, blocks, subject);
    } else if share == 0 {
      assert RowsAbout(g, Flatten(blocks), subject) == [];
    }
  }

  lemma {:induction false} AskedCounts(asked: seq<string>, subject: string)
    ensures subject in asked <==> Times(asked, subject) > 0
  {
    if asked != [] {
      var k := |asked| - 1;
      AskedCounts(asked[..k], subject);
      assert asked == asked[..k] + [asked[k]];
    }
  }

  lemma OneShareIff(times: nat, share: nat)
    requires times > 0
    ensures times * share == share <==> (times > 1 ==> share == 0)
  {
    assert times * share == share + (times - 1) * share;
    if times > 1 && share > 0 { assert (times - 1) * share >= share; }
  }
}
