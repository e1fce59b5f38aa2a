/** The knowledge graph of one space: its three tables and what each write does to them.

    Every function here gives a SQL statement, or a sequence of them in one transaction, its
    meaning on whole tables. `GraphStore` proves the imperative store against these functions and
    `GraphRuns` proves what any run of writes keeps. */
module KnowledgeGraph {
  import opened Text
  import opened Timestamps
  import Audience

  // ---- tables --------------------------------------------------------------

  datatype Statement = Statement(
    subject: string, predicate_: string, object_: string,
    audience: string, sensitive: bool,
    validFrom: Option<string>, validTo: Option<string>, recordedAt: string,
    confidence: real,
    turn: Option<string>, assertion: Option<string>, evidence: Option<string>,
    projection: Option<string>, adapter: Option<string>)
  {
    predicate IsOpen() {
      validTo.None?
    }
  }

  datatype Mention = Mention(entity: string, alias: string, audience: string, source: string, confidence: real)

  /** Rows by primary key. An entity row is its display name. */
  datatype Graph = Graph(
    statements: map<string, Statement>,
    entities: map<string, string>,
    mentions: map<string, Mention>)

  const EMPTY := Graph(map[], map[], map[])

  /** What the store takes from outside: the timestamp parser, lower-casing, and the digest that
      makes statement ids. Nothing is assumed about them here; two statements whose digests
      collide are refused by the primary key. */
  datatype Env = Env(parse: string -> Parsed, lower: string -> string, digest: string -> string)

  // ---- identity ------------------------------------------------------------

  const SENSITIVE_PREDICATES := {"has_health_condition", "takes_medication", "has_symptom"}

  const UNIT_SEPARATOR := "\U{1F}"

  function EntityId(env: Env, name: string): string {
    Slug(env.lower(Strip(name)))
  }

  function Slug(s: string): string {
    WithoutQuotes(Underscored(s))
  }

  function Underscored(s: string): string {
    if s == [] then [] else [if s[0] == ' ' then '_' else s[0]] + Underscored(s[1..])
  }

  function WithoutQuotes(s: string): string {
    if s == [] then [] else (if s[0] == '\'' then [] else [s[0]]) + WithoutQuotes(s[1..])
  }

  /** The scoped triple a statement asserts. */
  datatype Claim = Claim(subject: string, predicate_: string, object_: string, audience: string)

  function ClaimOf(row: Statement): Claim {
    Claim(row.subject, row.predicate_, row.object_, row.audience)
  }

  function StatementId(env: Env, claim: Claim, started: string, recorded: string, projection: Option<string>): string {
    "stmt_" + env.digest(IdText(claim, Identity(started, recorded, projection)))
  }

  function Identity(started: string, recorded: string, projection: Option<string>): string {
    if Truthy(projection) then projection.value else started + UNIT_SEPARATOR + recorded
  }

  /** The fields of a claim and what tells its statements apart, joined. */
  function IdText(claim: Claim, identity: string): string {
    claim.subject + UNIT_SEPARATOR + (claim.predicate_ + UNIT_SEPARATOR + (claim.object_
      + UNIT_SEPARATOR + (claim.audience + UNIT_SEPARATOR + identity)))
  }

  /** A moment given by a caller, or the clock when it gave none. */
  function MomentOr(env: Env, given: Option<string>, now: string): string {
    var moment := Canonical(env.parse, given);
    if moment.Some? then moment.value else now
  }

  // ---- adding --------------------------------------------------------------

  datatype NewTriple = NewTriple(
    subject: string, predicate_: string, object_: string, audience: string,
    validFrom: Option<string>, validTo: Option<string>, confidence: real,
    turn: Option<string>, assertion: Option<string>, evidence: Option<string>,
    projection: Option<string>, adapter: Option<string>, sensitive: Option<bool>)

  /** The two readings of the clock one write makes. */
  datatype Clock = Clock(start: string, record: string)

  datatype AddError = BadAudience | ProjectionTaken | DuplicateKey

  datatype Decision =
    | Refuse(error: AddError)
    | ReuseProjection
    | ReuseTurn
    | ReuseOpen
    | Insert(id: string, row: Statement)

  function ClaimFor(env: Env, t: NewTriple, audience: string): Claim {
    Claim(EntityId(env, t.subject), t.predicate_, EntityId(env, t.object_), audience)
  }

  predicate ProjectionHit(g: Graph, projection: Option<string>, id: string) {
    id in g.statements && projection.Some? && g.statements[id].projection == projection
  }

  predicate TurnHit(g: Graph, turn: Option<string>, claim: Claim, id: string) {
    && id in g.statements
    && turn.Some? && g.statements[id].turn == turn
    && ClaimOf(g.statements[id]) == claim
  }

  predicate OpenHit(g: Graph, claim: Claim, id: string) {
    id in g.statements && g.statements[id].IsOpen() && ClaimOf(g.statements[id]) == claim
  }

  predicate HasProjection(g: Graph, projection: Option<string>) {
    exists id | id in g.statements :: ProjectionHit(g, projection, id)
  }

  predicate HasTurn(g: Graph, turn: Option<string>, claim: Claim) {
    exists id | id in g.statements :: TurnHit(g, turn, claim, id)
  }

  predicate HasOpen(g: Graph, claim: Claim) {
    exists id | id in g.statements :: OpenHit(g, claim, id)
  }

  function NewRow(env: Env, t: NewTriple, claim: Claim, clock: Clock): Statement {
    Statement(claim.subject, claim.predicate_, claim.object_, claim.audience,
              if t.sensitive.Some? then t.sensitive.value else t.predicate_ in SENSITIVE_PREDICATES,
              Some(MomentOr(env, t.validFrom, clock.start)), Canonical(env.parse, t.validTo), clock.record,
              t.confidence, t.turn, t.assertion, t.evidence, t.projection, t.adapter)
  }

  /** Projection identity first, then the turn, then an identical statement that is still open;
      the primary key and the unique projection index have the last word. */
  function Decide(env: Env, g: Graph, t: NewTriple, clock: Clock): Decision {
    var audience := Audience.Validate(t.audience);
    if audience.None? then Refuse(BadAudience)
    else
      var claim := ClaimFor(env, t, audience.value);
      if Truthy(t.projection) && HasProjection(g, t.projection) then
        if forall id | id in g.statements && ProjectionHit(g, t.projection, id) :: ClaimOf(g.statements[id]) == claim
        then ReuseProjection else Refuse(ProjectionTaken)
      else if Truthy(t.turn) && HasTurn(g, t.turn, claim) then ReuseTurn
      else if HasOpen(g, claim) then ReuseOpen
      else
        var row := NewRow(env, t, claim, clock);
        var id := StatementId(env, claim, row.validFrom.value, row.recordedAt, t.projection);
        if id in g.statements || HasProjection(g, t.projection) then Refuse(DuplicateKey) else Insert(id, row)
  }

  /** `INSERT OR IGNORE` of an entity. */
  function WithEntity(entities: map<string, string>, id: string, name: string): map<string, string> {
    if id in entities then entities else entities[id := Strip(name)]
  }

  function Added(env: Env, g: Graph, t: NewTriple, clock: Clock): Graph {
    match Decide(env, g, t, clock)
    case Insert(id, row) => Inserted(g, id, row, t.subject, t.object_)
    case _ => g
  }

  function Inserted(g: Graph, id: string, row: Statement, subject: string, object_: string): Graph {
    Graph(g.statements[id := row],
          WithEntity(WithEntity(g.entities, row.subject, subject), row.object_, object_),
          g.mentions)
  }

  /** What the look-ups of an add have ruled out by the time it inserts. */
  lemma InsertFacts(env: Env, g: Graph, t: NewTriple, clock: Clock)
    requires Decide(env, g, t, clock).Insert?
    ensures Audience.Validate(t.audience).Some?
    ensures var Insert(id, row) := Decide(env, g, t, clock);
      && id !in g.statements && row == NewRow(env, t, ClaimAdded(env, t), clock)
      && ClaimOf(row) == ClaimAdded(env, t)
      && !HasOpen(g, ClaimAdded(env, t))
      && (Truthy(t.turn) ==> !HasTurn(g, t.turn, ClaimAdded(env, t)))
      && !HasProjection(g, t.projection)
  {
  }

  /** The claim an add is about, when its audience is accepted. */
  function ClaimAdded(env: Env, t: NewTriple): Claim
    requires Audience.Validate(t.audience).Some?
  {
    ClaimFor(env, t, Audience.Validate(t.audience).value)
  }

  datatype Result<+T, +E> = Ok(value: T) | Err(error: E)

  /** Which ids an add may return. Several rows can answer a look-up; the query takes any. */
  predicate AddReturns(env: Env, g: Graph, t: NewTriple, clock: Clock, r: Result<string, AddError>) {
    var audience := Audience.Validate(t.audience);
    match Decide(env, g, t, clock)
    case Refuse(e) => r == Err(e)
    case Insert(id, _) => r == Ok(id)
    case ReuseProjection => r.Ok? && ProjectionHit(g, t.projection, r.value)
    case ReuseTurn => r.Ok? && audience.Some? && TurnHit(g, t.turn, ClaimFor(env, t, audience.value), r.value)
    case ReuseOpen => r.Ok? && audience.Some? && OpenHit(g, ClaimFor(env, t, audience.value), r.value)
  }

  // ---- closing -------------------------------------------------------------

  /** `UPDATE ... SET valid_to = ? WHERE ... AND valid_to IS NULL` */
  function Closed(g: Graph, ids: set<string>, at: string): Graph {
    g.(statements := map id | id in g.statements ::
         if id in ids && g.statements[id].IsOpen() then g.statements[id].(validTo := Some(at)) else g.statements[id])
  }

  function OpenAmong(g: Graph, ids: set<string>): set<string> {
    set id | id in ids && id in g.statements && g.statements[id].IsOpen()
  }

  /** The validated tokens, or nothing if one is refused. */
  function ValidateAll(audiences: seq<string>): Option<set<string>> {
    if forall a | a in audiences :: Audience.Validate(a).Some?
    then Some(set a | a in audiences && Audience.Validate(a).Some? :: Audience.Validate(a).value)
    else None
  }

  function Matching(env: Env, g: Graph, subject: string, pred: string, object_: string, audiences: set<string>): set<string> {
    set id | id in g.statements
             && g.statements[id].subject == EntityId(env, subject) && g.statements[id].predicate_ == pred
             && g.statements[id].object_ == EntityId(env, object_) && g.statements[id].audience in audiences
  }

  function Invalidated(env: Env, g: Graph, subject: string, pred: string, object_: string,
                       audiences: seq<string>, ended: Option<string>, now: string): Graph {
    var checked := ValidateAll(audiences);
    if checked.None? then g
    else Closed(g, Matching(env, g, subject, pred, object_, checked.value), MomentOr(env, ended, now))
  }

  // ---- forgetting ----------------------------------------------------------

  datatype KeyColumn = SourceTurnId | StatementIdColumn | AssertionId

  /** The stripped, non-blank keys of a command. */
  function Wanted(values: seq<string>): set<string> {
    set v | v in values && Strip(v) != "" :: Strip(v)
  }

  predicate KeyedBy(g: Graph, column: KeyColumn, keys: set<string>, id: string)
    requires id in g.statements
  {
    match column
    case SourceTurnId => g.statements[id].turn.Some? && g.statements[id].turn.value in keys
    case StatementIdColumn => id in keys
    case AssertionId => g.statements[id].assertion.Some? && g.statements[id].assertion.value in keys
  }

  function Keyed(g: Graph, column: KeyColumn, keys: set<string>): set<string> {
    set id | id in g.statements && KeyedBy(g, column, keys, id)
  }

  function Referenced(statements: map<string, Statement>): set<string> {
    (set id | id in statements :: statements[id].subject) + (set id | id in statements :: statements[id].object_)
  }

  function Remaining(g: Graph, doomed: set<string>): map<string, Statement> {
    map id | id in g.statements && id !in doomed :: g.statements[id]
  }

  function Removed(g: Graph, doomed: set<string>): map<string, Statement> {
    map id | id in g.statements && id in doomed :: g.statements[id]
  }

  /** Entities of the removed rows that no remaining row mentions. */
  function Orphans(g: Graph, doomed: set<string>): set<string> {
    Referenced(Removed(g, doomed)) - Referenced(Remaining(g, doomed))
  }

  function WithoutEntities(g: Graph, gone: set<string>): Graph {
    g.(entities := g.entities - gone,
       mentions := map m | m in g.mentions && g.mentions[m].entity !in gone :: g.mentions[m])
  }

  function HardForgotten(g: Graph, column: KeyColumn, keys: set<string>): Graph {
    var doomed := Keyed(g, column, keys);
    WithoutEntities(g.(statements := Remaining(g, doomed)), Orphans(g, doomed))
  }

  // ---- the other writes ----------------------------------------------------

  function Moved(g: Graph, turns: set<string>, audience: string): Graph {
    g.(statements := map id | id in g.statements ::
         if KeyedBy(g, SourceTurnId, turns, id) then g.statements[id].(audience := audience) else g.statements[id])
  }

  datatype Change = Change(
    subject: string, predicate_: string, oldObject: string, newObject: string, audience: string,
    changedAt: Option<string>, confidence: real, turn: Option<string>)

  /** The clock as a supersede reads it: once for the boundary, once to close, twice to add. */
  datatype ChangeClock = ChangeClock(boundary: string, close: string, add: Clock)

  function Boundary(env: Env, c: Change, clock: ChangeClock): string {
    MomentOr(env, c.changedAt, clock.boundary)
  }

  function OldEnded(env: Env, g: Graph, c: Change, clock: ChangeClock): Graph {
    Invalidated(env, g, c.subject, c.predicate_, c.oldObject, [c.audience], Some(Boundary(env, c, clock)), clock.close)
  }

  function NewTripleOf(env: Env, c: Change, clock: ChangeClock): NewTriple {
    NewTriple(c.subject, c.predicate_, c.newObject, c.audience, Some(Boundary(env, c, clock)), None,
              c.confidence, c.turn, None, None, None, None, None)
  }

  /** Two transactions under one lock hold. */
  function Superseded(env: Env, g: Graph, c: Change, clock: ChangeClock): Graph {
    Added(env, OldEnded(env, g, c, clock), NewTripleOf(env, c, clock), clock.add)
  }

  /** The primary key of a mention. */
  function MentionKey(audience: string, entity: string, alias: string): string {
    audience + ":" + entity + ":" + alias
  }

  /** What a mention is stored under, or nothing where it is skipped or refused. */
  function MentionOf(env: Env, entity: string, alias: string, audience: string, source: string, confidence: real): Option<Mention> {
    var id, folded, checked := EntityId(env, entity), env.lower(Strip(alias)), Audience.Validate(audience);
    if folded == "" || id == "" || checked.None? then None else Some(Mention(id, folded, checked.value, source, confidence))
  }

  /** `INSERT OR IGNORE` of a mention. */
  function Mentioned(env: Env, g: Graph, entity: string, alias: string, audience: string, source: string, confidence: real): Graph {
    var m := MentionOf(env, entity, alias, audience, source, confidence);
    if m.None? then g
    else
      var key := MentionKey(m.value.audience, m.value.entity, m.value.alias);
      if key in g.mentions then g else g.(mentions := g.mentions[key := m.value])
  }

  // ---- reading -------------------------------------------------------------

  /** `VALID_AT`: from the start up to but excluding the end; a missing bound is unbounded. */
  predicate ValidAt(row: Statement, moment: string) {
    && (row.validFrom.None? || AtMost(row.validFrom.value, moment))
    && (row.validTo.None? || Less(moment, row.validTo.value))
  }

  /** Both joins to the entity table find a row. */
  predicate Joined(g: Graph, row: Statement) {
    row.subject in g.entities && row.object_ in g.entities
  }

  predicate Visible(row: Statement, audiences: seq<string>, includeSensitive: bool) {
    row.audience in audiences && (includeSensitive || !row.sensitive)
  }
}
