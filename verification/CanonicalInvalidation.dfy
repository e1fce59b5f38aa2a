/** Ending one exact fact across three stores that share no transaction: the ledger registers the
    intent, the drawer is archived, the graph rows are closed, and only then does the ledger say
    the fact is over. An attempt can be cut off after any of these writes and made again. */
module CanonicalInvalidation {
  import opened Text
  import opened KnowledgeGraph
  import opened Timestamps
  import GraphStore
  import Audience

  datatype FactState = FactActive | FactInvalidated | FactSuperseded

  /** A ledger row: how often the fact has been activated decides the name of its projection. */
  datatype Assertion = Assertion(state: FactState, activations: nat)

  datatype Invalidation = Invalidation(
    assertion: string, event: string, rawClaim: string, endedAt: string, reason: string, result: FactState, applied: bool)

  datatype Drawer = Drawer(key: string, source: Option<string>, recallable: bool)

  datatype Stores = Stores(
    assertions: map<string, Assertion>, invalidations: map<string, Invalidation>, drawers: seq<Drawer>, graph: Graph)

  /** A fact as the ledger identifies it: the text as given, in one audience. */
  datatype Fact = Fact(audience: string, subject: string, predicate_: string, object_: string)

  datatype Intent = Intent(
    id: string, audience: string, subject: string, predicate_: string, object_: string, occurredAt: Option<string>,
    event: string, rawClaim: string, reason: string, result: FactState)

  /** The digest of the ledger, the decimal form of a number, and what the graph takes from outside. */
  datatype Names = Names(env: Env, assertionId: Fact -> string, decimal: nat -> string)

  /** The two clock readings of an attempt that matter: the ledger's and the graph's. */
  datatype Readings = Readings(register: string, close: string)

  /** How far an attempt gets. */
  datatype Reach = BeforeRegister | AfterRegister | AfterArchive | AfterClose | Complete

  // ---- one attempt ---------------------------------------------------------

  /** What the wire model guarantees: a moment, if given, is not blank. */
  predicate WellFormed(i: Intent) {
    i.occurredAt.Some? ==> i.occurredAt.value != ""
  }

  /** A complete triple in a known audience, ending in one of the two final states. */
  predicate Acceptable(i: Intent) {
    && i.subject != "" && i.predicate_ != "" && i.object_ != "" && !i.result.FactActive?
    && Audience.Validate(i.audience).Some?
  }

  function FactOf(i: Intent): Fact
    requires Acceptable(i)
  {
    Fact(Audience.Validate(i.audience).value, i.subject, i.predicate_, i.object_)
  }

  function ProjectionId(n: Names, assertion: string, activations: nat): string {
    if activations <= 1 then assertion else assertion + ":activation:" + n.decimal(activations)
  }

  /** The source id of the drawer that shows a fact. */
  function SourceOf(n: Names, s: Stores, f: Fact): string {
    var a := n.assertionId(f);
    "canonical:" + if a in s.assertions then ProjectionId(n, a, s.assertions[a].activations) else a
  }

  function EndedAt(i: Intent, now: string): string {
    if Truthy(i.occurredAt) then i.occurredAt.value else now
  }

  /** The intent id is registered for something else. */
  predicate Conflicts(n: Names, s: Stores, i: Intent, now: string)
    requires Acceptable(i)
  {
    n.assertionId(FactOf(i)) in s.assertions && i.id in s.invalidations &&
    var r := s.invalidations[i.id];
    || r.assertion != n.assertionId(FactOf(i)) || r.event != i.event || r.rawClaim != i.rawClaim
    || (i.occurredAt.Some? && r.endedAt != EndedAt(i, now))
    || r.reason != i.reason || r.result != i.result
  }

  function Registered(n: Names, s: Stores, i: Intent, now: string): Stores
    requires Acceptable(i)
  {
    var a := n.assertionId(FactOf(i));
    if a !in s.assertions || i.id in s.invalidations then s
    else s.(invalidations := s.invalidations[i.id := Invalidation(a, i.event, i.rawClaim, EndedAt(i, now), i.reason, i.result, false)])
  }

  predicate AlreadyApplied(n: Names, s: Stores, i: Intent)
    requires Acceptable(i)
  {
    n.assertionId(FactOf(i)) in s.assertions && i.id in s.invalidations && s.invalidations[i.id].applied
  }

  /** The first drawer with a source id, in the order of the store. */
  function FirstWith(drawers: seq<Drawer>, source: string): (r: Option<nat>)
    ensures r.None? <==> forall k :: 0 <= k < |drawers| ==> drawers[k].source != Some(source)
    ensures r.Some? ==> r.value < |drawers| && drawers[r.value].source == Some(source)
    ensures r.Some? ==> forall k :: 0 <= k < r.value ==> drawers[k].source != Some(source)
  {
    if drawers == [] then None
    else if drawers[0].source == Some(source) then Some(0)
    else
      var r := FirstWith(drawers[1..], source);
      assert forall k :: 0 < k < |drawers| ==> drawers[k] == drawers[1..][k - 1];
      if r.None? then None else Some(r.value + 1)
  }

  function Archived(s: Stores, source: string): Stores {
    var k := FirstWith(s.drawers, source);
    if k.None? then s else s.(drawers := s.drawers[k.value := s.drawers[k.value].(recallable := false)])
  }

  function Ended(n: Names, s: Stores, f: Fact, occurredAt: Option<string>, now: string): Stores {
    s.(graph := Invalidated(n.env, s.graph, f.subject, f.predicate_, f.object_, [f.audience], occurredAt, now))
  }

  function Marked(n: Names, s: Stores, i: Intent): Stores
    requires Acceptable(i) && i.id in s.invalidations && n.assertionId(FactOf(i)) in s.assertions
  {
    var a := n.assertionId(FactOf(i));
    s.(invalidations := s.invalidations[i.id := s.invalidations[i.id].(applied := true)],
       assertions := s.assertions[a := s.assertions[a].(state := i.result)])
  }

  function Attempt(n: Names, s: Stores, i: Intent, at: Readings, reach: Reach): Stores {
    if !Acceptable(i) || reach.BeforeRegister? || Conflicts(n, s, i, at.register) then s
    else
      var registered := Registered(n, s, i, at.register);
      if reach.AfterRegister? || AlreadyApplied(n, s, i) then registered
      else Projected(n, registered, i, at.close, reach)
  }

  /** After registration: the drawer, then the graph, then the ledger if it knows the fact. */
  function Projected(n: Names, s: Stores, i: Intent, close: string, reach: Reach): Stores
    requires Acceptable(i) && (n.assertionId(FactOf(i)) in s.assertions ==> i.id in s.invalidations)
  {
    var f := FactOf(i);
    var archived := Archived(s, SourceOf(n, s, f));
    if reach.AfterArchive? then archived
    else
      var ended := Ended(n, archived, f, i.occurredAt, close);
      if reach.AfterClose? || n.assertionId(f) !in s.assertions then ended else Marked(n, ended, i)
  }

  datatype Try = Try(intent: Intent, at: Readings, reach: Reach)

  function Attempts(n: Names, s: Stores, tries: seq<Try>): Stores
    decreases |tries|
  {
    if tries == [] then s
    else Attempts(n, Attempt(n, s, tries[0].intent, tries[0].at, tries[0].reach), tries[1..])
  }

  // ---- what the ledger says is so ------------------------------------------

  /** The rows of the graph that state a fact and are still open. */
  function OpenRows(n: Names, s: Stores, f: Fact): set<string> {
    OpenAmong(s.graph, Matching(n.env, s.graph, f.subject, f.predicate_, f.object_, {f.audience}))
  }

  predicate DrawerSilent(drawers: seq<Drawer>, source: string) {
    FirstWith(drawers, source).Some? ==> !drawers[FirstWith(drawers, source).value].recallable
  }

  /** Neither the drawer of the fact nor a row of the graph shows it any more. */
  ghost predicate Quiet(n: Names, s: Stores, f: Fact) {
    DrawerSilent(s.drawers, SourceOf(n, s, f)) && OpenRows(n, s, f) == {}
  }

  /** None of these facts is marked over in the ledger while it is still shown. */
  ghost predicate Honest(n: Names, s: Stores, facts: set<Fact>) {
    forall f :: f in facts && MarkedOver(n, s, f) ==> Quiet(n, s, f)
  }

  predicate MarkedOver(n: Names, s: Stores, f: Fact) {
    n.assertionId(f) in s.assertions && !s.assertions[n.assertionId(f)].state.FactActive?
  }

  /** The digest tells these facts apart. It has a fixed length, so it cannot tell all facts apart. */
  predicate NoCollisions(n: Names, facts: set<Fact>) {
    forall f, g | f in facts && g in facts && n.assertionId(f) == n.assertionId(g) :: f == g
  }

  /** The facts under consideration include the one an intent is about. */
  predicate About(facts: set<Fact>, i: Intent) {
    Acceptable(i) ==> FactOf(i) in facts
  }

  lemma SameSourcesSameFirst(a: seq<Drawer>, b: seq<Drawer>, source: string)
    requires |a| == |b| && forall k :: 0 <= k < |a| ==> a[k].source == b[k].source
    ensures FirstWith(a, source) == FirstWith(b, source)
  {
    var i, j := FirstWith(a, source), FirstWith(b, source);
    if i.Some? { assert b[i.value].source == Some(source); }
    if j.Some? { assert a[j.value].source == Some(source); }
  }

  /** Archiving silences the drawer that is found, and no drawer is ever made recallable. */
  lemma ArchivedSilences(s: Stores, source: string, other: string)
    ensures DrawerSilent(Archived(s, source).drawers, source)
    ensures DrawerSilent(s.drawers, other) ==> DrawerSilent(Archived(s, source).drawers, other)
    ensures FirstWith(Archived(s, source).drawers, other) == FirstWith(s.drawers, other)
  {
    SameSourcesSameFirst(Archived(s, source).drawers, s.drawers, other);
    SameSourcesSameFirst(Archived(s, source).drawers, s.drawers, source);
  }

  lemma OneAudience(audience: string)
    requires Audience.Validate(audience) == Some(audience)
    ensures ValidateAll([audience]) == Some({audience})
  {
    assert forall a :: a in [audience] <==> a == audience;
    var all := set a | a in [audience] && Audience.Validate(a).Some? :: Audience.Validate(a).value;
    assert audience in all by { assert audience in [audience]; }
    assert all == {audience};
  }

  lemma EndedCloses(n: Names, s: Stores, f: Fact, occurredAt: Option<string>, now: string, other: Fact)
    requires Audience.Validate(f.audience) == Some(f.audience)
    ensures OpenRows(n, Ended(n, s, f, occurredAt, now), f) == {}
    ensures OpenRows(n, Ended(n, s, f, occurredAt, now), other) <= OpenRows(n, s, other)
  {
    OneAudience(f.audience);
  }

  lemma ProjectedKeepsQuiet(n: Names, s: Stores, i: Intent, close: string, reach: Reach, f: Fact)
    requires Acceptable(i) && (n.assertionId(FactOf(i)) in s.assertions ==> i.id in s.invalidations)
    requires Quiet(n, s, f)
    ensures Quiet(n, Projected(n, s, i, close, reach), f)
  {
    Audience.ValidateIdempotent(i.audience);
    var source := SourceOf(n, s, FactOf(i));
    ArchivedSilences(s, source, SourceOf(n, s, f));
    EndedCloses(n, Archived(s, source), FactOf(i), i.occurredAt, close, f);
    assert SourceOf(n, Projected(n, s, i, close, reach), f) == SourceOf(n, s, f);
  }

  lemma AttemptKeepsQuiet(n: Names, s: Stores, i: Intent, at: Readings, reach: Reach, f: Fact)
    requires Quiet(n, s, f)
    ensures Quiet(n, Attempt(n, s, i, at, reach), f)
  {
    if Acceptable(i) {
      var registered := Registered(n, s, i, at.register);
      assert SourceOf(n, registered, f) == SourceOf(n, s, f) && OpenRows(n, registered, f) == OpenRows(n, s, f);
      if n.assertionId(FactOf(i)) in registered.assertions ==> i.id in registered.invalidations {
        ProjectedKeepsQuiet(n, registered, i, at.close, reach, f);
      }
    }
  }

  lemma ProjectedIsQuiet(n: Names, s: Stores, i: Intent, close: string)
    requires Acceptable(i) && (n.assertionId(FactOf(i)) in s.assertions ==> i.id in s.invalidations)
    ensures Quiet(n, Projected(n, s, i, close, Complete), FactOf(i))
  {
    var f := FactOf(i);
    var source := SourceOf(n, s, f);
    var v := Projected(n, s, i, close, Complete);
    Audience.ValidateIdempotent(i.audience);
    ArchivedSilences(s, source, source);
    EndedCloses(n, Archived(s, source), f, i.occurredAt, close, f);
    assert SourceOf(n, v, f) == source;
    assert v.graph == Ended(n, Archived(s, source), f, i.occurredAt, close).graph;
  }

  lemma OnlyCompletionMoves(n: Names, s: Stores, i: Intent, at: Readings, reach: Reach)
    requires Acceptable(i) && Attempt(n, s, i, at, reach).assertions != s.assertions
    ensures var registered := Registered(n, s, i, at.register);
      && (n.assertionId(FactOf(i)) in registered.assertions && i.id in registered.invalidations)
      && Attempt(n, s, i, at, reach) == Projected(n, registered, i, at.close, Complete)
    ensures Attempt(n, s, i, at, reach).assertions
         == s.assertions[n.assertionId(FactOf(i)) := s.assertions[n.assertionId(FactOf(i))].(state := i.result)]
  {
  }

  /** Only a completed attempt moves the ledger, and by then its fact is shown nowhere. */
  lemma MarkingIsHonest(n: Names, s: Stores, i: Intent, at: Readings, reach: Reach)
    requires Acceptable(i) && Attempt(n, s, i, at, reach).assertions != s.assertions
    ensures Quiet(n, Attempt(n, s, i, at, reach), FactOf(i))
    ensures Attempt(n, s, i, at, reach).assertions
         == s.assertions[n.assertionId(FactOf(i)) := s.assertions[n.assertionId(FactOf(i))].(state := i.result)]
  {
    OnlyCompletionMoves(n, s, i, at, reach);
    ProjectedIsQuiet(n, Registered(n, s, i, at.register), i, at.close);
  }

  lemma AttemptKeepsHonest(n: Names, s: Stores, i: Intent, at: Readings, reach: Reach, facts: set<Fact>)
    requires NoCollisions(n, facts) && Honest(n, s, facts) && About(facts, i)
    ensures Honest(n, Attempt(n, s, i, at, reach), facts)
  {
    var v := Attempt(n, s, i, at, reach);
    forall f | f in facts && MarkedOver(n, v, f) ensures Quiet(n, v, f) {
      if v.assertions == s.assertions {
        AttemptKeepsQuiet(n, s, i, at, reach, f);
      } else {
        MarkingIsHonest(n, s, i, at, reach);
        if f != FactOf(i) {
          assert n.assertionId(f) != n.assertionId(FactOf(i));
          AttemptKeepsQuiet(n, s, i, at, reach, f);
        }
      }
    }
  }

  /** Whatever attempts are made, for whatever intents, and wherever each is cut off: among any facts
      that include those of the intents and that the digest tells apart, none is ever marked over in
      the ledger while its drawer can be recalled or a row of it is open. */
  lemma {:induction false} NeverMarkedWhileShown(n: Names, s: Stores, tries: seq<Try>, facts: set<Fact>)
    requires NoCollisions(n, facts) && Honest(n, s, facts)
    requires forall k :: 0 <= k < |tries| ==> About(facts, tries[k].intent)
    ensures Honest(n, Attempts(n, s, tries), facts)
    decreases |tries|
  {
    if tries != [] {
      AttemptKeepsHonest(n, s, tries[0].intent, tries[0].at, tries[0].reach, facts);
      NeverMarkedWhileShown(n, Attempt(n, s, tries[0].intent, tries[0].at, tries[0].reach), tries[1..], facts);
    }
  }

  // ---- making the attempt again --------------------------------------------

  /** The readings that stay: of the first try that registered and of the first that closed rows. */
  function FirstReadings(tries: seq<Try>): Readings
    requires tries != []
  {
    if |tries| == 1 then tries[0].at
    else Kept(tries[0].at, tries[0].reach, FirstReadings(tries[1..]))
  }

  function Kept(at: Readings, reach: Reach, later: Readings): Readings {
    Readings(if reach.BeforeRegister? then later.register else at.register,
             if reach.AfterClose? || reach.Complete? then at.close else later.close)
  }

  lemma ConflictsAtAnyTime(n: Names, s: Stores, i: Intent, now: string, later: string)
    requires Acceptable(i) && WellFormed(i)
    ensures Conflicts(n, s, i, now) == Conflicts(n, s, i, later)
  {
  }

  lemma RegisteredTwice(n: Names, s: Stores, i: Intent, now: string, later: string)
    requires Acceptable(i) && WellFormed(i) && !Conflicts(n, s, i, now)
    ensures var r := Registered(n, s, i, now); !Conflicts(n, r, i, later) && Registered(n, r, i, later) == r
  {
  }

  lemma SilentStays(s: Stores, source: string)
    requires DrawerSilent(s.drawers, source)
    ensures Archived(s, source) == s
  {
    var k := FirstWith(s.drawers, source);
    if k.Some? { assert s.drawers[k.value := s.drawers[k.value].(recallable := false)] == s.drawers; }
  }

  lemma ClosedStays(n: Names, s: Stores, f: Fact, occurredAt: Option<string>, now: string)
    requires Audience.Validate(f.audience) == Some(f.audience) && OpenRows(n, s, f) == {}
    ensures Ended(n, s, f, occurredAt, now) == s
  {
    OneAudience(f.audience);
    var rows := Matching(n.env, s.graph, f.subject, f.predicate_, f.object_, {f.audience});
    forall id | id in s.graph.statements && id in rows ensures !s.graph.statements[id].IsOpen() {
      assert id !in OpenRows(n, s, f);
    }
    assert Closed(s.graph, rows, MomentOr(n.env, occurredAt, now)).statements == s.graph.statements;
  }

  /** Registered for this intent, or unknown to the ledger. */
  predicate Ready(n: Names, s: Stores, i: Intent) {
    && Acceptable(i) && !Conflicts(n, s, i, "") && Registered(n, s, i, "") == s
    && (n.assertionId(FactOf(i)) in s.assertions ==> i.id in s.invalidations)
  }

  lemma ArchivedThenProjected(n: Names, s: Stores, i: Intent, close: string, later: string)
    requires Ready(n, s, i)
    ensures Ready(n, Projected(n, s, i, close, AfterArchive), i)
    ensures Projected(n, Projected(n, s, i, close, AfterArchive), i, later, Complete) == Projected(n, s, i, later, Complete)
  {
    var source := SourceOf(n, s, FactOf(i));
    ArchivedSilences(s, source, source);
    SilentStays(Archived(s, source), source);
  }

  lemma ClosedThenProjected(n: Names, s: Stores, i: Intent, close: string, later: string)
    requires Ready(n, s, i)
    ensures Ready(n, Projected(n, s, i, close, AfterClose), i)
    ensures Projected(n, Projected(n, s, i, close, AfterClose), i, later, Complete) == Projected(n, s, i, close, Complete)
  {
    var f := FactOf(i);
    var source := SourceOf(n, s, f);
    var archived := Archived(s, source);
    var ended := Ended(n, archived, f, i.occurredAt, close);
    Audience.ValidateIdempotent(i.audience);
    ArchivedSilences(s, source, source);
    SilentStays(ended, source);
    EndedCloses(n, archived, f, i.occurredAt, close, f);
    ClosedStays(n, ended, f, i.occurredAt, later);
  }

  lemma CompletedThenProjected(n: Names, s: Stores, i: Intent, close: string, later: string)
    requires Ready(n, s, i)
    ensures var v := Projected(n, s, i, close, Complete);
      Ready(n, v, i) && (AlreadyApplied(n, v, i) || Projected(n, v, i, later, Complete) == v)
  {
    if n.assertionId(FactOf(i)) !in s.assertions {
      ClosedThenProjected(n, s, i, close, later);
    }
  }

  /** Completing after a cut-off try gives what one uninterrupted attempt would have given. */
  lemma CutThenComplete(n: Names, s: Stores, i: Intent, at: Readings, reach: Reach, later: Readings)
    requires WellFormed(i)
    ensures Attempt(n, Attempt(n, s, i, at, reach), i, later, Complete) == Attempt(n, s, i, Kept(at, reach, later), Complete)
  {
    if Acceptable(i) {
      ConflictsAtAnyTime(n, s, i, at.register, later.register);
      if !reach.BeforeRegister? && !Conflicts(n, s, i, at.register) {
        RegisteredIsReady(n, s, i, at.register, later.register);
        if !reach.AfterRegister? && !AlreadyApplied(n, s, i) {
          ProjectedThenComplete(n, Registered(n, s, i, at.register), i, at.close, reach, later);
        }
      }
    }
  }

  lemma RegisteredIsReady(n: Names, s: Stores, i: Intent, now: string, later: string)
    requires Acceptable(i) && WellFormed(i) && !Conflicts(n, s, i, now)
    ensures Ready(n, Registered(n, s, i, now), i)
    ensures !Conflicts(n, Registered(n, s, i, now), i, later)
    ensures Registered(n, Registered(n, s, i, now), i, later) == Registered(n, s, i, now)
    ensures AlreadyApplied(n, Registered(n, s, i, now), i) == AlreadyApplied(n, s, i)
  {
    RegisteredTwice(n, s, i, now, later);
    RegisteredTwice(n, s, i, now, "");
  }

  lemma ProjectedThenComplete(n: Names, s: Stores, i: Intent, close: string, reach: Reach, later: Readings)
    requires Ready(n, s, i) && WellFormed(i) && !AlreadyApplied(n, s, i) && !reach.BeforeRegister? && !reach.AfterRegister?
    ensures Attempt(n, Projected(n, s, i, close, reach), i, later, Complete)
         == Projected(n, s, i, if reach.AfterArchive? then later.close else close, Complete)
  {
    var v := Projected(n, s, i, close, reach);
    if reach.AfterArchive? {
      ArchivedThenProjected(n, s, i, close, later.close);
    } else if reach.AfterClose? {
      ClosedThenProjected(n, s, i, close, later.close);
    } else {
      CompletedThenProjected(n, s, i, close, later.close);
    }
    ConflictsAtAnyTime(n, v, i, "", later.register);
  }

  /** Any number of tries, cut off anywhere, ending in one complete attempt, reach the state of a
      single run, with the first closing time kept. */
  lemma {:induction false} RetriesReachTheSingleRun(n: Names, s: Stores, i: Intent, tries: seq<Try>)
    requires WellFormed(i) && tries != [] && tries[|tries| - 1].reach.Complete?
    requires forall k :: 0 <= k < |tries| ==> tries[k].intent == i
    ensures Attempts(n, s, tries) == Attempt(n, s, i, FirstReadings(tries), Complete)
    decreases |tries|
  {
    if |tries| == 1 {
      AttemptsOfOne(n, s, tries[0]);
    } else {
      RetriesReachTheSingleRun(n, Attempt(n, s, i, tries[0].at, tries[0].reach), i, tries[1..]);
      CutThenComplete(n, s, i, tries[0].at, tries[0].reach, FirstReadings(tries[1..]));
    }
  }

  lemma AttemptsOfOne(n: Names, s: Stores, t: Try)
    ensures forall tries :: tries == [t] ==> Attempts(n, s, tries) == Attempt(n, s, t.intent, t.at, t.reach)
  {
    assert [t][1..] == [];
  }

  /** A fact with a moment of its own ends at that moment whenever the attempts are made. */
  lemma GivenMomentDecides(n: Names, s: Stores, i: Intent, at: Readings, later: Readings)
    requires WellFormed(i) && i.occurredAt.Some? && Canonical(n.env.parse, i.occurredAt).Some?
    ensures Attempt(n, s, i, at, Complete) == Attempt(n, s, i, later, Complete)
  {
    if Acceptable(i) {
      ConflictsAtAnyTime(n, s, i, at.register, later.register);
      assert Registered(n, s, i, at.register) == Registered(n, s, i, later.register);
      SameMomentSameRows(n, Registered(n, s, i, at.register), i, at.close, later.close);
    }
  }

  lemma SameMomentSameRows(n: Names, s: Stores, i: Intent, close: string, later: string)
    requires Acceptable(i) && (n.assertionId(FactOf(i)) in s.assertions ==> i.id in s.invalidations)
    requires i.occurredAt.Some? && Canonical(n.env.parse, i.occurredAt).Some?
    ensures Projected(n, s, i, close, Complete) == Projected(n, s, i, later, Complete)
  {
    assert MomentOr(n.env, i.occurredAt, close) == MomentOr(n.env, i.occurredAt, later);
  }

  // ---- in the stores' own terms --------------------------------------------

  /** Two activations of one fact never share a drawer. */
  lemma ActivationsHaveTheirOwnDrawers(n: Names, s: Stores, t: Stores, f: Fact)
    requires forall j, k :: n.decimal(j) == n.decimal(k) ==> j == k
    requires n.assertionId(f) in s.assertions && n.assertionId(f) in t.assertions
    requires 1 <= s.assertions[n.assertionId(f)].activations < t.assertions[n.assertionId(f)].activations
    ensures SourceOf(n, s, f) != SourceOf(n, t, f)
  {
    var a, j, k := n.assertionId(f), s.assertions[n.assertionId(f)].activations, t.assertions[n.assertionId(f)].activations;
    var p := "canonical:" + a + ":activation:";
    SourceText(n, s, f);
    SourceText(n, t, f);
    assert (p + n.decimal(k))[|p|..] == n.decimal(k);
    if j >= 2 { assert (p + n.decimal(j))[|p|..] == n.decimal(j); }
  }

  /** The name of a drawer, letter by letter. */
  lemma SourceText(n: Names, s: Stores, f: Fact)
    ensures var a := n.assertionId(f);
      SourceOf(n, s, f) == if a in s.assertions && s.assertions[a].activations >= 2
                           then "canonical:" + a + ":activation:" + n.decimal(s.assertions[a].activations)
                           else "canonical:" + a
  {
    var a := n.assertionId(f);
    if a in s.assertions && s.assertions[a].activations >= 2 {
      var d := n.decimal(s.assertions[a].activations);
      assert "canonical:" + (a + ":activation:" + d) == "canonical:" + a + ":activation:" + d;
    }
  }

  /** This is the first drawer with this source id. */
  predicate IsFirstWith(drawers: seq<Drawer>, source: string, k: nat) {
    k < |drawers| && drawers[k].source == Some(source) && forall j :: 0 <= j < k ==> drawers[j].source != Some(source)
  }

  /** What a complete attempt leaves behind: of a fact activated once the first drawer named
      `canonical:<id>` is silent, of one activated k > 1 times the first one named
      `canonical:<id>:activation:<k>`; no other drawer has changed. No row of the triple is open. The
      ledger, if it knows the fact, has the state asked for and nothing else in it has moved. */
  lemma CompleteAttemptInFull(n: Names, s: Stores, i: Intent, at: Readings, source: string)
    requires Acceptable(i) && !Conflicts(n, s, i, at.register) && !AlreadyApplied(n, s, i)
    requires var a := n.assertionId(FactOf(i));
      source == if a in s.assertions && s.assertions[a].activations >= 2
                then "canonical:" + a + ":activation:" + n.decimal(s.assertions[a].activations) else "canonical:" + a
    ensures var v, a := Attempt(n, s, i, at, Complete), n.assertionId(FactOf(i));
      && |v.drawers| == |s.drawers|
      && (forall k :: 0 <= k < |s.drawers| ==>
            v.drawers[k] == if IsFirstWith(s.drawers, source, k) then s.drawers[k].(recallable := false) else s.drawers[k])
      && NoneOpen(n.env, v.graph, i)
      && (a in s.assertions ==> i.id in v.invalidations && v.invalidations[i.id].applied)
      && v.assertions == if a in s.assertions then s.assertions[a := Assertion(i.result, s.assertions[a].activations)] else s.assertions
  {
    var registered := Registered(n, s, i, at.register);
    var v := Attempt(n, s, i, at, Complete);
    assert v == Projected(n, registered, i, at.close, Complete);
    SourceText(n, registered, FactOf(i));
    assert v.drawers == Archived(registered, source).drawers;
    OnlyTheFirst(registered, source);
    LedgerAfterwards(n, registered, i, at.close);
    ProjectedIsQuiet(n, registered, i, at.close);
    QuietHasNoneOpen(n, v, i);
  }

  lemma OnlyTheFirst(s: Stores, source: string)
    ensures var after := Archived(s, source).drawers;
      && |after| == |s.drawers|
      && forall k :: 0 <= k < |s.drawers| ==>
           after[k] == if IsFirstWith(s.drawers, source, k) then s.drawers[k].(recallable := false) else s.drawers[k]
  {
  }

  lemma LedgerAfterwards(n: Names, s: Stores, i: Intent, close: string)
    requires Acceptable(i) && (n.assertionId(FactOf(i)) in s.assertions ==> i.id in s.invalidations)
    ensures var v, a := Projected(n, s, i, close, Complete), n.assertionId(FactOf(i));
      && (a in s.assertions ==> i.id in v.invalidations && v.invalidations[i.id].applied)
      && v.assertions == if a in s.assertions then s.assertions[a := Assertion(i.result, s.assertions[a].activations)] else s.assertions
  {
  }

  /** No open row states the triple of the intent in its audience. */
  predicate NoneOpen(env: Env, g: Graph, i: Intent)
    requires Acceptable(i)
  {
    forall id | id in g.statements && g.statements[id].validTo.None? ::
      ClaimOf(g.statements[id])
        != Claim(EntityId(env, i.subject), i.predicate_, EntityId(env, i.object_), Audience.Validate(i.audience).value)
  }

  lemma QuietHasNoneOpen(n: Names, s: Stores, i: Intent)
    requires Acceptable(i) && Quiet(n, s, FactOf(i))
    ensures NoneOpen(n.env, s.graph, i)
  {
    var f := FactOf(i);
    forall id | id in s.graph.statements && s.graph.statements[id].validTo.None?
      ensures ClaimOf(s.graph.statements[id]) != Claim(EntityId(n.env, f.subject), f.predicate_, EntityId(n.env, f.object_), f.audience)
    {
      assert id !in OpenRows(n, s, f);
    }
  }

  /** An intent id stands for one command: used again for a known fact it is refused exactly when the
      fact, the event, the claim, the reason or the outcome differs, or when it names a moment and
      that is not the one registered. */
  lemma ReuseConflictsIff(n: Names, s: Stores, i: Intent, j: Intent, now: string, later: string)
    requires Acceptable(i) && Acceptable(j) && WellFormed(i) && WellFormed(j) && i.id == j.id && i.id !in s.invalidations
    requires n.assertionId(FactOf(i)) in s.assertions && n.assertionId(FactOf(j)) in s.assertions
    ensures Conflicts(n, Registered(n, s, i, now), j, later)
       <==> !(&& n.assertionId(FactOf(j)) == n.assertionId(FactOf(i))
              && j.event == i.event && j.rawClaim == i.rawClaim && j.reason == i.reason && j.result == i.result
              && (j.occurredAt.None? || j.occurredAt.value == if i.occurredAt.Some? then i.occurredAt.value else now))
  {
  }

  // ---- the second drawer ---------------------------------------------------

  /** Only the first drawer with the source id is looked at, now and on every retry. All of them
      are silent after an attempt exactly when all but the first were silent before. */
  lemma TwinDrawerSilentIff(n: Names, s: Stores, i: Intent, at: Readings)
    requires Acceptable(i) && !Conflicts(n, s, i, at.register) && !AlreadyApplied(n, s, i)
    ensures var source := SourceOf(n, s, FactOf(i));
      (forall k :: 0 <= k < |s.drawers| && Attempt(n, s, i, at, Complete).drawers[k].source == Some(source) ==>
         !Attempt(n, s, i, at, Complete).drawers[k].recallable)
      <==>
      (forall k :: 0 <= k < |s.drawers| && s.drawers[k].source == Some(source) && FirstWith(s.drawers, source) != Some(k) ==>
         !s.drawers[k].recallable)
  {
    var source := SourceOf(n, s, FactOf(i));
    var after := Attempt(n, s, i, at, Complete).drawers;
    assert SourceOf(n, Registered(n, s, i, at.register), FactOf(i)) == source;
    assert after == Archived(s, source).drawers;
    assert forall k :: 0 <= k < |after| && FirstWith(s.drawers, source) != Some(k) ==> after[k] == s.drawers[k];
  }

  /** The assistant's own command and the turn processor file one projection under two keys. */
  function TwinStores(n: Names, i: Intent, first: string, second: string): Stores
    requires Acceptable(i)
  {
    var a := n.assertionId(FactOf(i));
    Stores(map[a := Assertion(FactActive, 1)], map[],
           [Drawer(first, Some("canonical:" + a), true), Drawer(second, Some("canonical:" + a), true)], EMPTY)
  }

  /** The loss in full: the ledger says the fact is over, and the second drawer can be recalled, now
      and after any further tries. */
  lemma TwinDrawerStaysRecallable(n: Names, i: Intent, at: Readings, first: string, second: string, tries: seq<Try>)
    requires Acceptable(i) && WellFormed(i) && first != second
    requires forall k :: 0 <= k < |tries| ==> tries[k].intent == i
    ensures var done := Attempt(n, TwinStores(n, i, first, second), i, at, Complete);
      && MarkedOver(n, done, FactOf(i)) && !done.drawers[0].recallable
      && Attempts(n, done, tries) == done
      && |done.drawers| == 2 && done.drawers[1] == Drawer(second, Some(SourceOf(n, done, FactOf(i))), true)
  {
    TwinAfterOne(n, i, at, first, second);
    var done := Attempt(n, TwinStores(n, i, first, second), i, at, Complete);
    AppliedStays(n, done, i, tries);
  }

  lemma TwinAfterOne(n: Names, i: Intent, at: Readings, first: string, second: string)
    requires Acceptable(i) && WellFormed(i) && first != second
    ensures var done := Attempt(n, TwinStores(n, i, first, second), i, at, Complete);
      && MarkedOver(n, done, FactOf(i)) && |done.drawers| == 2 && !done.drawers[0].recallable
      && done.drawers[1] == Drawer(second, Some(SourceOf(n, done, FactOf(i))), true)
      && AlreadyApplied(n, done, i) && !Conflicts(n, done, i, "")
  {
    var s := TwinStores(n, i, first, second);
    var a := n.assertionId(FactOf(i));
    var registered := Registered(n, s, i, at.register);
    assert SourceOf(n, registered, FactOf(i)) == "canonical:" + a;
    assert FirstWith(s.drawers, "canonical:" + a) == Some(0);
    var archived := Archived(registered, "canonical:" + a);
    assert archived.drawers == [s.drawers[0].(recallable := false), s.drawers[1]];
  }

  /** An intent that has been applied is answered at once, however often it is tried. */
  lemma {:induction false} AppliedStays(n: Names, s: Stores, i: Intent, tries: seq<Try>)
    requires Acceptable(i) && WellFormed(i) && AlreadyApplied(n, s, i) && !Conflicts(n, s, i, "")
    requires forall k :: 0 <= k < |tries| ==> tries[k].intent == i
    ensures Attempts(n, s, tries) == s
    decreases |tries|
  {
    if tries != [] {
      ConflictsAtAnyTime(n, s, i, "", tries[0].at.register);
      assert Attempt(n, s, i, tries[0].at, tries[0].reach) == s;
      AppliedStays(n, s, i, tries[1..]);
    }
  }

  // ---- the routine over its stores -----------------------------------------

  /** What the ledger answers to a registration. */
  datatype Registration = Conflicting | Registration(matched: bool, applied: bool, projection: Option<string>)

  datatype Outcome = Incomplete | Conflict | CutOff | Done(drawerArchived: bool, rows: nat, matched: bool)

  predicate DistinctKeys(drawers: seq<Drawer>) {
    forall j, k :: 0 <= j < k < |drawers| ==> drawers[j].key != drawers[k].key
  }

  class ExactInvalidation {
    const n: Names
    const kg: GraphStore.SqliteKnowledgeGraph
    var assertions: map<string, Assertion>
    var invalidations: map<string, Invalidation>
    var drawers: seq<Drawer>

    function State(): Stores
      reads this, kg
    {
      Stores(assertions, invalidations, drawers, kg.Tables())
    }

    ghost predicate Valid()
      reads this, kg
    {
      n.env == kg.env && kg.Valid() && DistinctKeys(drawers)
    }

    constructor (n: Names, kg: GraphStore.SqliteKnowledgeGraph)
      requires n.env == kg.env && kg.Valid()
      ensures Valid() && this.n == n && this.kg == kg && State() == Stores(map[], map[], [], kg.Tables())
    {
      this.n, this.kg := n, kg;
      assertions, invalidations, drawers := map[], map[], [];
    }

    method RegisterInvalidation(i: Intent, now: string) returns (r: Registration)
      requires Acceptable(i)
      modifies this`invalidations
      ensures r.Conflicting? <==> Conflicts(n, old(State()), i, now)
      ensures State() == if r.Conflicting? then old(State()) else Registered(n, old(State()), i, now)
      ensures !r.Conflicting? ==>
        && r.matched == (n.assertionId(FactOf(i)) in assertions)
        && r.applied == AlreadyApplied(n, old(State()), i)
        && SourceOf(n, State(), FactOf(i)) == "canonical:" + if r.projection.Some? then r.projection.value else n.assertionId(FactOf(i))
    {
      var a := n.assertionId(FactOf(i));
      if a !in assertions { return Registration(false, false, None); }
      if i.id in invalidations {
        if Conflicts(n, State(), i, now) { return Conflicting; }
      } else {
        invalidations := invalidations[i.id := Invalidation(a, i.event, i.rawClaim, EndedAt(i, now), i.reason, i.result, false)];
      }
      return Registration(true, invalidations[i.id].applied, Some(ProjectionId(n, a, assertions[a].activations)));
    }

    method GetBySource(source: string) returns (r: Option<nat>)
      ensures r == FirstWith(drawers, source)
    {
      for k := 0 to |drawers|
        invariant forall j :: 0 <= j < k ==> drawers[j].source != Some(source)
      {
        if drawers[k].source == Some(source) { return Some(k); }
      }
      return None;
    }

    /** Silence the drawers with these keys; skip keys that are not there. */
    method ArchiveMany(keys: seq<string>) returns (archived: seq<string>)
      requires Valid()
      modifies this`drawers
      ensures Valid() && |drawers| == |old(drawers)|
      ensures forall k :: 0 <= k < |drawers| ==>
        drawers[k] == if old(drawers)[k].key in keys then old(drawers)[k].(recallable := false) else old(drawers)[k]
      ensures forall key :: key in archived <==> key in keys && exists k :: 0 <= k < |old(drawers)| && old(drawers)[k].key == key
    {
      archived := [];
      for m := 0 to |keys|
        invariant |drawers| == |old(drawers)|
        invariant forall k :: 0 <= k < |drawers| ==>
          drawers[k] == if old(drawers)[k].key in keys[..m] then old(drawers)[k].(recallable := false) else old(drawers)[k]
        invariant forall key :: key in archived <==> key in keys[..m] && exists k :: 0 <= k < |old(drawers)| && old(drawers)[k].key == key
      {
        var key := keys[m];
        assert keys[..m + 1] == keys[..m] + [key];
        if k :| 0 <= k < |drawers| && drawers[k].key == key {
          drawers := drawers[k := drawers[k].(recallable := false)];
          archived := archived + [key];
        }
      }
      assert keys[..|keys|] == keys;
    }

    method MarkInvalidated(i: Intent)
      requires Acceptable(i) && i.id in invalidations && n.assertionId(FactOf(i)) in assertions
      requires invalidations[i.id].assertion == n.assertionId(FactOf(i)) && invalidations[i.id].result == i.result
      modifies this`invalidations, this`assertions
      ensures State() == if old(invalidations)[i.id].applied then old(State()) else Marked(n, old(State()), i)
    {
      var r := invalidations[i.id];
      if r.applied { return; }
      invalidations := invalidations[i.id := r.(applied := true)];
      assertions := assertions[r.assertion := assertions[r.assertion].(state := r.result)];
    }

    /** Archive the drawer the source id finds, unless it is silent already. */
    method ArchiveFound(source: string) returns (silenced: bool)
      requires Valid()
      modifies this`drawers
      ensures Valid() && State() == Archived(old(State()), source)
      ensures silenced <==> !DrawerSilent(old(drawers), source)
    {
      silenced := false;
      var found := GetBySource(source);
      if found.Some? && drawers[found.value].recallable {
        ghost var before := drawers;
        var archived := ArchiveMany([drawers[found.value].key]);
        assert drawers == before[found.value := before[found.value].(recallable := false)];
        silenced := true;
      } else {
        SilentStays(State(), source);
      }
    }

    method InvalidateExact(i: Intent, at: Readings, reach: Reach) returns (r: Outcome)
      requires Valid()
      modifies this, kg`statements
      ensures Valid() && State() == Attempt(n, old(State()), i, at, reach)
      ensures r.Incomplete? <==> !Acceptable(i)
      ensures Acceptable(i) && reach.Complete? ==>
        r == if Conflicts(n, old(State()), i, at.register) then Conflict
             else if AlreadyApplied(n, old(State()), i) then Done(false, 0, true)
             else Done(!DrawerSilent(old(drawers), SourceOf(n, old(State()), FactOf(i))),
                       |OpenRows(n, old(State()), FactOf(i))|, n.assertionId(FactOf(i)) in old(assertions))
    {
      if !Acceptable(i) { return Incomplete; }
      var f := FactOf(i);
      ghost var before := State();
      if reach.BeforeRegister? { return CutOff; }
      var registration := RegisterInvalidation(i, at.register);
      if registration.Conflicting? { return Conflict; }
      if reach.AfterRegister? { return CutOff; }
      if registration.applied { return Done(false, 0, registration.matched); }
      assert SourceOf(n, State(), f) == SourceOf(n, before, f);
      r := Project(i, registration, at.close, reach);
    }

    method Project(i: Intent, registration: Registration, close: string, reach: Reach) returns (r: Outcome)
      requires Valid() && Acceptable(i) && !registration.Conflicting? && !registration.applied
      requires registration.matched == (n.assertionId(FactOf(i)) in assertions)
      requires SourceOf(n, State(), FactOf(i))
            == "canonical:" + if registration.projection.Some? then registration.projection.value else n.assertionId(FactOf(i))
      requires registration.matched ==> i.id in invalidations && !invalidations[i.id].applied
      requires registration.matched ==> invalidations[i.id].assertion == n.assertionId(FactOf(i))
      requires registration.matched ==> invalidations[i.id].result == i.result
      modifies this, kg`statements
      ensures Valid() && State() == Projected(n, old(State()), i, close, reach)
      ensures !r.Incomplete?
      ensures reach.Complete? ==> r == Done(!DrawerSilent(old(drawers), SourceOf(n, old(State()), FactOf(i))),
                                            |OpenRows(n, old(State()), FactOf(i))|, n.assertionId(FactOf(i)) in old(assertions))
    {
      var f := FactOf(i);
      Audience.ValidateIdempotent(i.audience);
      OneAudience(f.audience);
      var source := "canonical:" + if registration.projection.Some? then registration.projection.value else n.assertionId(f);
      var archived := ArchiveFound(source);
      if reach.AfterArchive? { return CutOff; }
      var rows := kg.Invalidate(f.subject, f.predicate_, f.object_, [f.audience], i.occurredAt, close);
      if reach.AfterClose? { return CutOff; }
      if registration.matched {
        MarkInvalidated(i);
      }
      return Done(archived, rows.value, registration.matched);
    }
  }
}
