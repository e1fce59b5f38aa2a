/** Which mentions the graph keeps. The primary key glues audience, entity and alias together with
    colons, and all three may contain colons. */
module GraphMentions {
  import opened Text
  import opened KnowledgeGraph
  import opened GraphRuns

  /** Every mention is stored under its own key. */
  predicate KeysFit(g: Graph) {
    forall key | key in g.mentions :: key == KeyOf(g.mentions[key])
  }

  function KeyOf(m: Mention): string {
    MentionKey(m.audience, m.entity, m.alias)
  }

  /** The same alias for the same entity in the same audience. */
  predicate SameMention(a: Mention, b: Mention) {
    a.entity == b.entity && a.alias == b.alias && a.audience == b.audience
  }

  predicate Has(g: Graph, m: Mention) {
    exists key | key in g.mentions :: SameMention(g.mentions[key], m)
  }

  lemma StepKeepsKeys(env: Env, g: Graph, op: Op)
    requires KeysFit(g)
    ensures KeysFit(Apply(env, g, op))
  {
    match op
    case Add(t, clock) => assert Added(env, g, t, clock).mentions == g.mentions;
    case Supersede(c, clock) => assert Superseded(env, g, c, clock).mentions == g.mentions;
    case RecordMention(e, a, audience, source, confidence) =>
    case HardForget(_, _) =>
    case _ => assert Apply(env, g, op).mentions == g.mentions;
  }

  /** Over every run of writes. */
  lemma {:induction false} KeysFitOverRuns(env: Env, g: Graph, ops: seq<Op>)
    requires KeysFit(g)
    ensures KeysFit(Run(env, g, ops))
    decreases |ops|
  {
    if ops != [] {
      StepKeepsKeys(env, g, ops[0]);
      KeysFitOverRuns(env, Apply(env, g, ops[0]), ops[1..]);
    }
  }

  /** An accepted mention is in the graph afterwards exactly when its key was free or already stood
      for this very mention. Mentions stored before stay as they are. */
  lemma MentionStoredIff(env: Env, g: Graph, entity: string, alias: string, audience: string, source: string, confidence: real)
    requires KeysFit(g) && MentionOf(env, entity, alias, audience, source, confidence).Some?
    ensures var m := MentionOf(env, entity, alias, audience, source, confidence).value;
      Has(Mentioned(env, g, entity, alias, audience, source, confidence), m)
      <==> KeyOf(m) !in g.mentions || SameMention(g.mentions[KeyOf(m)], m)
    ensures forall key :: key in g.mentions ==>
      && key in Mentioned(env, g, entity, alias, audience, source, confidence).mentions
      && Mentioned(env, g, entity, alias, audience, source, confidence).mentions[key] == g.mentions[key]
  {
    var m := MentionOf(env, entity, alias, audience, source, confidence).value;
    var h := Mentioned(env, g, entity, alias, audience, source, confidence);
    if KeyOf(m) !in g.mentions || SameMention(g.mentions[KeyOf(m)], m) {
      assert SameMention(h.mentions[KeyOf(m)], m);
    } else {
      forall key | key in h.mentions ensures !SameMention(h.mentions[key], m) {
        assert SameMention(h.mentions[key], m) ==> key == KeyOf(m);
      }
    }
  }

  /** The loss in full: an alias `x` of the entity `p:r` hides the alias `r:x` of the entity `p`. */
  lemma MentionLost(env: Env, first: string, alias: string, second: string, other: string, audience: string,
                    source: string, confidence: real, p: string, r: string, x: string)
    requires MentionOf(env, first, alias, audience, source, confidence).Some?
    requires MentionOf(env, second, other, audience, source, confidence).Some?
    requires EntityId(env, first) == p + ":" + r && env.lower(Strip(alias)) == x
    requires EntityId(env, second) == p && env.lower(Strip(other)) == r + ":" + x
    ensures var h := Run(env, EMPTY, [RecordMention(first, alias, audience, source, confidence),
                                      RecordMention(second, other, audience, source, confidence)]);
      && Has(h, MentionOf(env, first, alias, audience, source, confidence).value)
      && !Has(h, MentionOf(env, second, other, audience, source, confidence).value)
  {
    var m, n := MentionOf(env, first, alias, audience, source, confidence).value, MentionOf(env, second, other, audience, source, confidence).value;
    var one := Mentioned(env, EMPTY, first, alias, audience, source, confidence);
    RunTwo(env, EMPTY, RecordMention(first, alias, audience, source, confidence), RecordMention(second, other, audience, source, confidence));
    assert one.mentions == map[KeyOf(m) := m];
    assert (p + ":" + r) + ":" + x == p + ":" + (r + ":" + x);
    assert KeyOf(m) == KeyOf(n) by {
      var a := m.audience;
      assert a + ":" + (p + ":" + r) + ":" + x == a + ":" + p + ":" + (r + ":" + x);
    }
    assert |p + ":" + r| > |p|;
    MentionStoredIff(env, one, second, other, audience, source, confidence);
    assert SameMention(one.mentions[KeyOf(m)], m);
  }
}
