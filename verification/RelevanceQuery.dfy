/** Statements about an entity, best first: `query_entity`. */
module RelevanceQuery {
  import opened Text
  import opened Ranking
  import opened KnowledgeGraph
  import opened GraphRuns
  import opened GraphHistory

  /** `confidence DESC, valid_from DESC, recorded_at DESC` */
  datatype Relevance = Relevance(confidence: real, validFrom: Option<string>, recordedAt: string)

  function RelevanceOf(row: Statement): Relevance {
    Relevance(row.confidence, row.validFrom, row.recordedAt)
  }

  predicate RanksBelow(a: Relevance, b: Relevance) {
    if a.confidence != b.confidence then a.confidence < b.confidence
    else if a.validFrom != b.validFrom then NullableLess(a.validFrom, b.validFrom)
    else Less(a.recordedAt, b.recordedAt)
  }

  /** Rows by relevance, descending; an id that is no row of the graph ranks last. */
  function ByRelevance(g: Graph): (string, string) -> bool {
    (i: string, j: string) =>
      if j !in g.statements then true
      else i in g.statements && !RanksBelow(RelevanceOf(g.statements[i]), RelevanceOf(g.statements[j]))
  }

  lemma NullableLessTotal(a: Option<string>, b: Option<string>)
    ensures NullableLess(a, b) || a == b || NullableLess(b, a)
    ensures !(NullableLess(a, b) && NullableLess(b, a)) && !NullableLess(a, a)
  {
    if a.Some? && b.Some? {
      LessTotal(a.value, b.value);
      if Less(a.value, b.value) { LessAsymmetric(a.value, b.value); }
    }
    if a.Some? { LessIrreflexive(a.value); }
  }

  lemma NullableLessTransitive(a: Option<string>, b: Option<string>, c: Option<string>)
    requires NullableLess(a, b) && NullableLess(b, c)
    ensures NullableLess(a, c)
  {
    if a.Some? { LessTransitive(a.value, b.value, c.value); }
  }

  lemma RanksBelowTotal(a: Relevance, b: Relevance)
    ensures RanksBelow(a, b) || a == b || RanksBelow(b, a)
    ensures !(RanksBelow(a, b) && RanksBelow(b, a)) && !RanksBelow(a, a)
  {
    NullableLessTotal(a.validFrom, b.validFrom);
    LessTotal(a.recordedAt, b.recordedAt);
    if Less(a.recordedAt, b.recordedAt) { LessAsymmetric(a.recordedAt, b.recordedAt); }
    LessIrreflexive(a.recordedAt);
  }

  lemma RanksBelowTransitive(a: Relevance, b: Relevance, c: Relevance)
    requires RanksBelow(a, b) && RanksBelow(b, c)
    ensures RanksBelow(a, c)
  {
    NullableLessTotal(a.validFrom, b.validFrom);
    NullableLessTotal(b.validFrom, c.validFrom);
    if a.validFrom != b.validFrom && b.validFrom != c.validFrom && a.confidence == b.confidence == c.confidence {
      NullableLessTransitive(a.validFrom, b.validFrom, c.validFrom);
      NullableLessTotal(a.validFrom, c.validFrom);
    }
    if a.confidence == b.confidence == c.confidence && a.validFrom == b.validFrom == c.validFrom {
      LessTransitive(a.recordedAt, b.recordedAt, c.recordedAt);
    }
  }

  lemma RelevanceIsPreorder(g: Graph)
    ensures TotalPreorder(ByRelevance(g))
  {
    var ge := ByRelevance(g);
    forall i, j ensures ge(i, j) || ge(j, i) {
      if i in g.statements && j in g.statements {
        RanksBelowTotal(RelevanceOf(g.statements[i]), RelevanceOf(g.statements[j]));
      }
    }
    forall i, j, k | ge(i, j) && ge(j, k) ensures ge(i, k) {
      if k in g.statements {
        var a, b, c := RelevanceOf(g.statements[i]), RelevanceOf(g.statements[j]), RelevanceOf(g.statements[k]);
        RanksBelowTotal(a, b);
        RanksBelowTotal(b, c);
        if RanksBelow(a, c) {
          if a != b && b != c { RanksBelowTransitive(c, b, a); RanksBelowTotal(a, c); }
        }
      }
    }
  }

  /** One direction, or both. */
  datatype Direction = Outgoing | Incoming | Both

  predicate Touches(row: Statement, entity: string, direction: Direction) {
    match direction
    case Outgoing => row.subject == entity
    case Incoming => row.object_ == entity
    case Both => row.subject == entity || row.object_ == entity
  }

  /** The rows one SELECT considers: the entity on that side, valid, in the audiences, allowed,
      and joined. For `Both` this is the OR a reader would write. */
  function About(g: Graph, entity: string, direction: Direction, moment: string,
                 audiences: seq<string>, includeSensitive: bool): set<string> {
    set id | id in Candidates(g, moment, audiences, includeSensitive) && Touches(g.statements[id], entity, direction)
  }

  /** An empty audience list is answered before any query runs, and means nothing is readable. */
  lemma NoAudienceSeesNothing(g: Graph, entity: string, direction: Direction, moment: string, includeSensitive: bool)
    ensures About(g, entity, direction, moment, [], includeSensitive) == {}
  {
  }

  /** Each branch of `Both` is cut on its own and the merged rows are cut again. The result is
      still the best rows of the OR query, and by `TopKeysAgree` it has exactly its keys. */
  method QueryEntity(env: Env, g: Graph, name: string, audiences: seq<string>, moment: string,
                     direction: Direction, includeSensitive: bool, limit: int) returns (rows: seq<string>)
    ensures var bound := if limit < 1 then 1 else limit;
      IsTop(ByRelevance(g), About(g, EntityId(env, name), direction, moment, audiences, includeSensitive), bound, rows)
    ensures forall id :: id in rows ==>
      id in g.statements && AnswersQuestion(g, g.statements[id], EntityId(env, name), direction, moment, audiences, includeSensitive)
    ensures forall i, j :: 0 <= i < j < |rows| ==> MayPrecede(g.statements[rows[i]], g.statements[rows[j]])
  {
    var entity := EntityId(env, name);
    var bound: nat := if limit < 1 then 1 else limit;
    if audiences == [] {
      NoAudienceSeesNothing(g, entity, direction, moment, includeSensitive);
      return [];
    }
    RelevanceIsPreorder(g);
    if direction == Both {
      var outgoing := SelectTop(ByRelevance(g), About(g, entity, Outgoing, moment, audiences, includeSensitive), bound);
      var incoming := SelectTop(ByRelevance(g), About(g, entity, Incoming, moment, audiences, includeSensitive), bound);
      rows := SelectTop(ByRelevance(g), ToSet(outgoing) + ToSet(incoming), bound);
      UnionOfBranches(g, entity, moment, audiences, includeSensitive, bound, outgoing, incoming, rows);
    } else {
      rows := SelectTop(ByRelevance(g), About(g, entity, direction, moment, audiences, includeSensitive), bound);
    }
    AnswerInColumns(g, entity, direction, moment, audiences, includeSensitive, bound, rows);
  }

  // ---- in columns ----------------------------------------------------------

  /** The row is about the entity in that direction, has started and not ended at the moment, is in
      one of the audiences, is not sensitive unless that is allowed, and both its ends have names. */
  predicate AnswersQuestion(g: Graph, row: Statement, entity: string, direction: Direction, moment: string,
                            audiences: seq<string>, includeSensitive: bool) {
    && ((row.subject == entity && direction != Incoming) || (row.object_ == entity && direction != Outgoing))
    && (row.validFrom.Some? ==> !Less(moment, row.validFrom.value))
    && (row.validTo.Some? ==> Less(moment, row.validTo.value))
    && row.audience in audiences
    && (row.sensitive ==> includeSensitive)
    && row.subject in g.entities && row.object_ in g.entities
  }

  /** The more confident row first; of equally confident ones the one that started later, and one
      without a start last; of those with one start the one recorded later. */
  predicate MayPrecede(a: Statement, b: Statement) {
    && a.confidence >= b.confidence
    && (a.confidence == b.confidence && b.validFrom.Some? ==> a.validFrom.Some? && !Less(a.validFrom.value, b.validFrom.value))
    && (a.confidence == b.confidence && a.validFrom == b.validFrom ==> !Less(a.recordedAt, b.recordedAt))
  }

  /** What is shown, in columns: only rows that answer the question, in this order, and when one that
      does is left out, then the answer is full and nothing in it should have made room. */
  lemma AnswerInColumns(g: Graph, entity: string, direction: Direction, moment: string, audiences: seq<string>,
                        includeSensitive: bool, bound: nat, rows: seq<string>)
    requires IsTop(ByRelevance(g), About(g, entity, direction, moment, audiences, includeSensitive), bound, rows)
    ensures |rows| <= bound
    ensures forall id :: id in rows ==>
      id in g.statements && AnswersQuestion(g, g.statements[id], entity, direction, moment, audiences, includeSensitive)
    ensures forall i, j :: 0 <= i < j < |rows| ==> MayPrecede(g.statements[rows[i]], g.statements[rows[j]])
    ensures forall id :: id in g.statements && id !in rows
                         && AnswersQuestion(g, g.statements[id], entity, direction, moment, audiences, includeSensitive) ==>
      |rows| == bound && forall i :: 0 <= i < |rows| ==> MayPrecede(g.statements[rows[i]], g.statements[id])
  {
    var pool := About(g, entity, direction, moment, audiences, includeSensitive);
    forall id | id in rows
      ensures id in g.statements && AnswersQuestion(g, g.statements[id], entity, direction, moment, audiences, includeSensitive)
    {
      assert id in ToSet(rows);
    }
    forall i, j | i in g.statements && j in g.statements && ByRelevance(g)(i, j)
      ensures MayPrecede(g.statements[i], g.statements[j])
    {
      RankInColumns(g.statements[i], g.statements[j]);
    }
    forall id | id in pool && id !in rows ensures |rows| == bound {
      assert id !in ToSet(rows);
      if |pool| <= bound { TopOfAll(ByRelevance(g), pool, bound, rows); }
    }
  }

  lemma RankInColumns(a: Statement, b: Statement)
    ensures !RanksBelow(RelevanceOf(a), RelevanceOf(b)) ==> MayPrecede(a, b)
  {
    NullableLessTotal(a.validFrom, b.validFrom);
  }

  lemma UnionOfBranches(g: Graph, entity: string, moment: string, audiences: seq<string>, includeSensitive: bool,
                        bound: nat, outgoing: seq<string>, incoming: seq<string>, rows: seq<string>)
    requires IsTop(ByRelevance(g), About(g, entity, Outgoing, moment, audiences, includeSensitive), bound, outgoing)
    requires IsTop(ByRelevance(g), About(g, entity, Incoming, moment, audiences, includeSensitive), bound, incoming)
    requires IsTop(ByRelevance(g), ToSet(outgoing) + ToSet(incoming), bound, rows)
    ensures IsTop(ByRelevance(g), About(g, entity, Both, moment, audiences, includeSensitive), bound, rows)
  {
    var ge := ByRelevance(g);
    var out := About(g, entity, Outgoing, moment, audiences, includeSensitive);
    var in_ := About(g, entity, Incoming, moment, audiences, includeSensitive);
    RelevanceIsPreorder(g);
    TopCovers(ge, out, bound, outgoing);
    TopCovers(ge, in_, bound, incoming);
    CoversUnion(ge, out, in_, bound, ToSet(outgoing), ToSet(incoming));
    assert About(g, entity, Both, moment, audiences, includeSensitive) == out + in_;
    TopOfCover(ge, out + in_, bound, ToSet(outgoing) + ToSet(incoming), bound, rows);
  }

  /** Any two answers to the same question show the same confidences, starts and recording times in
      the same places. */
  lemma AnswersShowSameKeys(g: Graph, pool: set<string>, bound: nat, a: seq<string>, b: seq<string>)
    requires pool <= g.statements.Keys
    requires IsTop(ByRelevance(g), pool, bound, a) && IsTop(ByRelevance(g), pool, bound, b)
    ensures |a| == |b|
    ensures forall i :: 0 <= i < |a| ==> a[i] in g.statements
    ensures forall i :: 0 <= i < |a| ==> b[i] in g.statements
    ensures forall i :: 0 <= i < |a| ==> RelevanceOf(g.statements[a[i]]) == RelevanceOf(g.statements[b[i]])
  {
    RelevanceIsPreorder(g);
    TopKeysAgree(ByRelevance(g), pool, bound, a, b);
    forall i | 0 <= i < |a|
      ensures a[i] in g.statements && b[i] in g.statements
      ensures RelevanceOf(g.statements[a[i]]) == RelevanceOf(g.statements[b[i]])
    {
      assert a[i] in ToSet(a) && b[i] in ToSet(b);
      RanksBelowTotal(RelevanceOf(g.statements[a[i]]), RelevanceOf(g.statements[b[i]]));
    }
  }

  /** The past is stable for the ranked answers too: the same question as of `m`, asked before and
      after writes that only concern later moments, has the same answers. */
  lemma {:induction false} PastAnswersAreStable(env: Env, g: Graph, ops: seq<Op>, m: string, entity: string, direction: Direction,
                             audiences: seq<string>, includeSensitive: bool, bound: nat, rows: seq<string>)
    requires EntitiesExact(g)
    requires forall i :: 0 <= i < |ops| ==> After(env, ops[i], m)
    ensures var h := Run(env, g, ops);
      IsTop(ByRelevance(g), About(g, entity, direction, m, audiences, includeSensitive), bound, rows)
      <==> IsTop(ByRelevance(h), About(h, entity, direction, m, audiences, includeSensitive), bound, rows)
  {
    var h := Run(env, g, ops);
    PastIsStable(env, g, ops, m);
    var pool := About(g, entity, direction, m, audiences, includeSensitive);
    assert About(h, entity, direction, m, audiences, includeSensitive) == pool by {
      assert Candidates(g, m, audiences, includeSensitive) == Candidates(h, m, audiences, includeSensitive);
    }
    forall i, j | i in pool && j in pool ensures ByRelevance(g)(i, j) == ByRelevance(h)(i, j) {
      assert RelevanceOf(g.statements[i]) == RelevanceOf(h.statements[i]);
      assert RelevanceOf(g.statements[j]) == RelevanceOf(h.statements[j]);
    }
    TopDependsOnPool(ByRelevance(g), ByRelevance(h), pool, bound, rows);
    TopDependsOnPool(ByRelevance(h), ByRelevance(g), pool, bound, rows);
  }

  lemma TopDependsOnPool(ge: (string, string) -> bool, other: (string, string) -> bool, pool: set<string>, n: nat, rows: seq<string>)
    requires forall i, j :: i in pool && j in pool ==> ge(i, j) == other(i, j)
    ensures IsTop(ge, pool, n, rows) ==> IsTop(other, pool, n, rows)
  {
    if IsTop(ge, pool, n, rows) {
      assert forall i :: 0 <= i < |rows| ==> rows[i] in ToSet(rows);
    }
  }
}
