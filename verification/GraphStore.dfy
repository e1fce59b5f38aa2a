/** The store itself: an object whose tables the writes update in place, one transaction each. */
module GraphStore {
  import opened Text
  import opened Ranking
  import opened KnowledgeGraph
  import opened GraphRuns
  import opened GraphMoves
  import opened GraphMentions
  import opened GraphWrites
  import opened Forgetting
  import opened Timestamps
  import Audience

  datatype ForgetError = ReceiptsNotWritten | Stopped | CheckpointBusy

  class SqliteKnowledgeGraph {
    const env: Env
    var statements: map<string, Statement>
    var entities: map<string, string>
    var mentions: map<string, Mention>
    var receipts: Log

    function Tables(): Graph
      reads this
    {
      Graph(statements, entities, mentions)
    }

    /** Entities are exactly the ends of statements, mentions stand under their own keys, and a
        projection id names one statement. */
    predicate Valid()
      reads this
    {
      ValidTables(Tables())
    }

    constructor (env: Env)
      ensures this.env == env && Tables() == EMPTY && receipts == map[]
      ensures Valid() && NoDuplicateFacts(Tables())
    {
      this.env := env;
      statements, entities, mentions, receipts := map[], map[], map[], map[];
    }

    method AddTriple(t: NewTriple, clock: Clock) returns (r: Result<string, AddError>)
      requires Valid()
      modifies this`statements, this`entities
      ensures Valid() && (NoDuplicateFacts(old(Tables())) ==> NoDuplicateFacts(Tables()))
      ensures Tables() == Added(env, old(Tables()), t, clock)
      ensures AddReturns(env, old(Tables()), t, clock, r)
      ensures r.Err? ==> Tables() == old(Tables())
      ensures r.Ok? ==>
        && Audience.Validate(t.audience).Some? && r.value in statements
        && States(env, statements[r.value], t, Audience.Validate(t.audience).value)
      ensures r.Ok? && r.value in old(statements) ==> Tables() == old(Tables())
      ensures r.Ok? && r.value !in old(statements) ==>
        && NothingStands(env, old(Tables()), t, Audience.Validate(t.audience).value)
        && statements == old(statements)[r.value := statements[r.value]]
        && RowAsAsked(env, statements[r.value], t, Audience.Validate(t.audience).value, clock)
    {
      StepKeeps(env, Tables(), Add(t, clock));
      ApplyAdd(env, Tables(), t, clock);
      ghost var before := Tables();
      r := AddTripleSync(t, clock);
      AddInColumns(env, before, t, clock, r);
    }

    method AddTripleSync(t: NewTriple, clock: Clock) returns (r: Result<string, AddError>)
      modifies this`statements, this`entities
      ensures Tables() == Added(env, old(Tables()), t, clock)
      ensures AddReturns(env, old(Tables()), t, clock, r)
    {
      var subjectId, objectId := EntityId(env, t.subject), EntityId(env, t.object_);
      var started := MomentOr(env, t.validFrom, clock.start);
      var ended := Canonical(env.parse, t.validTo);
      var audience := Audience.Validate(t.audience);
      if audience.None? {
        return Err(BadAudience);
      }
      var claim := Claim(subjectId, t.predicate_, objectId, audience.value);

      if Truthy(t.projection) {
        if HasProjection(Tables(), t.projection) {
          var existing :| existing in statements && ProjectionHit(Tables(), t.projection, existing);
          if exists id | id in statements :: ProjectionHit(Tables(), t.projection, id) && ClaimOf(statements[id]) != claim {
            return Err(ProjectionTaken);
          }
          return Ok(existing);
        }
      }

      if Truthy(t.turn) {
        if HasTurn(Tables(), t.turn, claim) {
          var existing :| existing in statements && TurnHit(Tables(), t.turn, claim, existing);
          return Ok(existing);
        }
      }

      if HasOpen(Tables(), claim) {
        var stillValid :| stillValid in statements && OpenHit(Tables(), claim, stillValid);
        return Ok(stillValid);
      }

      var id := StatementId(env, claim, started, clock.record, t.projection);
      if id in statements || HasProjection(Tables(), t.projection) {
        return Err(DuplicateKey);
      }
      var sensitive := if t.sensitive.Some? then t.sensitive.value else t.predicate_ in SENSITIVE_PREDICATES;
      InsertRow(id, Statement(subjectId, t.predicate_, objectId, audience.value, sensitive, Some(started), ended,
                              clock.record, t.confidence, t.turn, t.assertion, t.evidence, t.projection, t.adapter),
                t.subject, t.object_);
      return Ok(id);
    }

    /** The last part of an add: the two entities and the statement. */
    method InsertRow(id: string, row: Statement, subject: string, object_: string)
      modifies this`statements, this`entities
      ensures Tables() == Inserted(old(Tables()), id, row, subject, object_)
    {
      UpsertEntity(row.subject, subject);
      UpsertEntity(row.object_, object_);
      assert entities == WithEntity(WithEntity(old(entities), row.subject, subject), row.object_, object_);
      statements := statements[id := row];
    }

    /** The entity is there afterwards; one that was there keeps its name, and no other changes. */
    method UpsertEntity(id: string, name: string)
      modifies this`entities
      ensures entities.Keys == old(entities.Keys) + {id}
      ensures forall e :: e in old(entities) ==> entities[e] == old(entities)[e]
      ensures id !in old(entities) ==> entities[id] == Strip(name)
    {
      if id !in entities {
        entities := entities[id := Strip(name)];
      }
    }

    /** Returns how many rows it ended, or nothing when an audience is refused. */
    method Invalidate(subject: string, pred: string, object_: string, audiences: seq<string>,
                      ended: Option<string>, now: string) returns (r: Option<nat>)
      requires Valid()
      modifies this`statements
      ensures Valid() && (NoDuplicateFacts(old(Tables())) ==> NoDuplicateFacts(Tables()))
      ensures Tables() == Invalidated(env, old(Tables()), subject, pred, object_, audiences, ended, now)
      ensures r.None? <==> ValidateAll(audiences).None?
      ensures r.Some? ==> r.value == |OpenAmong(old(Tables()),
                Matching(env, old(Tables()), subject, pred, object_, ValidateAll(audiences).value))|
    {
      StepKeeps(env, Tables(), GraphRuns.Op.Invalidate(subject, pred, object_, audiences, ended, now));
      r := InvalidateSync(subject, pred, object_, audiences, ended, now);
    }

    method InvalidateSync(subject: string, pred: string, object_: string, audiences: seq<string>,
                          ended: Option<string>, now: string) returns (r: Option<nat>)
      modifies this`statements
      ensures Tables() == Invalidated(env, old(Tables()), subject, pred, object_, audiences, ended, now)
      ensures r.None? <==> ValidateAll(audiences).None?
      ensures r.Some? ==> r.value == |OpenAmong(old(Tables()),
                Matching(env, old(Tables()), subject, pred, object_, ValidateAll(audiences).value))|
    {
      var checked := ValidateAll(audiences);
      if checked.None? { return None; }
      var ids := Matching(env, Tables(), subject, pred, object_, checked.value);
      r := Some(|OpenAmong(Tables(), ids)|);
      End(ids, MomentOr(env, ended, now));
    }

    method End(ids: set<string>, at: string)
      modifies this`statements
      ensures Tables() == Closed(old(Tables()), ids, at)
    {
      statements := map id | id in statements ::
        if id in ids && statements[id].IsOpen() then statements[id].(validTo := Some(at)) else statements[id];
    }

    method SoftForget(column: KeyColumn, values: seq<string>, ended: Option<string>, now: string) returns (count: nat)
      requires Valid()
      modifies this`statements
      ensures Valid() && (NoDuplicateFacts(old(Tables())) ==> NoDuplicateFacts(Tables()))
      ensures Tables() == Closed(old(Tables()), Keyed(old(Tables()), column, Wanted(values)), MomentOr(env, ended, now))
      ensures count == |OpenAmong(old(Tables()), Keyed(old(Tables()), column, Wanted(values)))|
      ensures statements.Keys == old(statements.Keys)
      ensures forall id :: id in statements ==>
        var row := old(statements)[id];
        statements[id] == if row.validTo.None? && CarriesOne(row, id, column, values)
                          then row.(validTo := Some(if Canonical(env.parse, ended).Some? then Canonical(env.parse, ended).value else now))
                          else row
    {
      SoftForgetInColumns(env, Tables(), column, values, ended, now);
      StepKeeps(env, Tables(), GraphRuns.Op.SoftForget(column, Wanted(values), ended, now));
      var ids := Keyed(Tables(), column, Wanted(values));
      count := |OpenAmong(Tables(), ids)|;
      End(ids, MomentOr(env, ended, now));
    }

    /** Receipts first, then the rows, then the entities they leave unreferenced. `disk` is what
        becomes of the receipts, `stopped` a process that ends between receipts and rows, and `busy`
        a checkpoint that cannot be taken. */
    method HardForget(column: KeyColumn, values: seq<string>, ended: Option<string>, now: string,
                      disk: Disk, stopped: bool, busy: bool) returns (r: Result<nat, ForgetError>)
      requires Valid()
      modifies this
      ensures Valid() && (NoDuplicateFacts(old(Tables())) ==> NoDuplicateFacts(Tables()))
      ensures Forgot(old(Tables()), old(receipts), column, Wanted(values), MomentOr(env, ended, now), disk, stopped, Tables(), receipts)
      ensures var doomed, day := Keyed(old(Tables()), column, Wanted(values)), DayOf(MomentOr(env, ended, now));
        r == if doomed != {} && !Believed(old(receipts), day, |doomed|, disk) then Err(ReceiptsNotWritten)
             else if doomed != {} && stopped then Err(Stopped)
             else if busy && Wanted(values) != {} then Err(CheckpointBusy)
             else Ok(|doomed|)
      ensures LossUnnoticed(old(receipts), DayOf(MomentOr(env, ended, now)), |Keyed(old(Tables()), column, Wanted(values))|, disk)
        || RemovedHaveReceipts(old(Tables()), Tables(), receipts, MomentOr(env, ended, now))
    {
      var keys, at := Wanted(values), MomentOr(env, ended, now);
      ghost var before, log := Tables(), receipts;
      r := ForgetRows(column, keys, at, disk, stopped);
      ForgotKeeps(env, before, log, column, keys, at, disk, stopped, Tables(), receipts);
      AllRemovedHaveReceipts(before, log, column, keys, at, disk, stopped, Tables(), receipts);
      if r.Ok? && busy && keys != {} { r := Err(CheckpointBusy); }
    }

    method ForgetRows(column: KeyColumn, keys: set<string>, at: string, disk: Disk, stopped: bool)
      returns (r: Result<nat, ForgetError>)
      modifies this
      ensures Forgot(old(Tables()), old(receipts), column, keys, at, disk, stopped, Tables(), receipts)
      ensures var doomed := Keyed(old(Tables()), column, keys);
        r == if doomed != {} && !Believed(old(receipts), DayOf(at), |doomed|, disk) then Err(ReceiptsNotWritten)
             else if doomed != {} && stopped then Err(Stopped) else Ok(|doomed|)
    {
      var doomed := Keyed(Tables(), column, keys);
      if doomed == {} { return Ok(0); }
      var believed := RecordForgotten(doomed, at, disk);
      if !believed { return Err(ReceiptsNotWritten); }
      if stopped { return Err(Stopped); }
      var touched := Referenced(Removed(Tables(), doomed));
      statements := Remaining(Tables(), doomed);
      DropUnreferenced(touched);
      return Ok(|doomed|);
    }

    /** Append the receipts to the day's file and read the file back. */
    method RecordForgotten(doomed: set<string>, at: string, disk: Disk) returns (believed: bool)
      requires doomed <= statements.Keys
      modifies this`receipts
      ensures Wrote(Tables(), old(receipts), doomed, at, disk, receipts)
      ensures believed <==> Believed(old(receipts), DayOf(at), |doomed|, disk)
    {
      var order := Enumerate(doomed);
      DistinctSize(order);
      var payload := FirstLines(Tables(), order, at, disk);
      receipts := Appended(receipts, DayOf(at), payload);
      if disk.Raises? { return false; }
      var written := LinesOf(receipts, DayOf(at));
      believed := |written| >= |doomed|;
    }

    /** Of the candidates, delete those no statement mentions any more. */
    method DropUnreferenced(candidates: set<string>)
      modifies this`entities, this`mentions
      ensures Tables() == WithoutEntities(old(Tables()), candidates - Referenced(statements))
    {
      var todo := candidates;
      ghost var before := Tables();
      NothingGone(before);
      while todo != {}
        invariant todo <= candidates
        invariant Tables() == WithoutEntities(before, candidates - todo - Referenced(statements))
        decreases |todo|
      {
        var entity :| entity in todo;
        ghost var gone := candidates - todo - Referenced(statements);
        OneMoreSeen(candidates, todo, entity, Referenced(statements));
        if entity !in Referenced(statements) {
          ForgetOne(before, gone, entity);
          mentions := map m | m in mentions && mentions[m].entity != entity :: mentions[m];
          entities := entities - {entity};
        }
        todo := todo - {entity};
      }
      assert candidates - {} - Referenced(statements) == candidates - Referenced(statements);
    }

    /** Every row of the turns, open or closed, is in the target audience afterwards and otherwise
        as it was; no other row changes. */
    method MoveSourceTurns(values: seq<string>, audience: string) returns (r: Option<nat>)
      requires Valid()
      modifies this`statements
      ensures Valid()
      ensures r.None? <==> Wanted(values) != {} && Audience.Validate(audience).None?
      ensures r.None? ==> statements == old(statements)
      ensures r.Some? ==> r.value == |Keyed(old(Tables()), SourceTurnId, Wanted(values))|
      ensures Keyed(Tables(), SourceTurnId, Wanted(values)) == Keyed(old(Tables()), SourceTurnId, Wanted(values))
      ensures statements.Keys == old(statements.Keys)
      ensures r.Some? ==> forall id :: id in Keyed(Tables(), SourceTurnId, Wanted(values)) ==>
        statements[id] == old(statements)[id].(audience := Audience.Validate(audience).value)
      ensures forall id :: id in statements && id !in Keyed(Tables(), SourceTurnId, Wanted(values)) ==>
        statements[id] == old(statements)[id]
      ensures r.Some? && NoDuplicateFacts(old(Tables())) && Wanted(values) != {} ==>
        (NoDuplicateFacts(Tables()) <==> NoneMeet(old(Tables()), Wanted(values), Audience.Validate(audience).value))
    {
      var turns := Wanted(values);
      if turns == {} {
        assert Keyed(Tables(), SourceTurnId, turns) == {};
        return Some(0);
      }
      var target := Audience.Validate(audience);
      if target.None? { return None; }
      r := Some(|Keyed(Tables(), SourceTurnId, turns)|);
      ghost var before := Tables();
      MoveKeepsValid(env, before, turns, audience);
      MovedRows(before, turns, target.value);
      if NoDuplicateFacts(before) { MoveKeepsNoDuplicatesIff(before, turns, target.value); }
      statements := Moved(Tables(), turns, target.value).statements;
      assert Tables() == Moved(before, turns, target.value);
    }

    /** End the old statement and start the new one at one boundary. */
    method Supersede(c: Change, clock: ChangeClock) returns (r: Result<string, AddError>)
      requires Valid()
      modifies this`statements, this`entities
      ensures Valid() && (NoDuplicateFacts(old(Tables())) ==> NoDuplicateFacts(Tables()))
      ensures Tables() == Superseded(env, old(Tables()), c, clock)
      ensures AddReturns(env, OldEnded(env, old(Tables()), c, clock), NewTripleOf(env, c, clock), clock.add, r)
    {
      var boundary := MomentOr(env, c.changedAt, clock.boundary);
      var ended := Invalidate(c.subject, c.predicate_, c.oldObject, [c.audience], Some(boundary), clock.close);
      r := AddTriple(NewTriple(c.subject, c.predicate_, c.newObject, c.audience, Some(boundary), None,
                               c.confidence, c.turn, None, None, None, None, None), clock.add);
    }

    /** A mention that is accepted is there afterwards exactly when its key was free or was its own;
        what was stored before stays. */
    method RecordMention(entity: string, alias: string, audience: string, source: string, confidence: real)
      requires Valid()
      modifies this`mentions
      ensures Valid() && (NoDuplicateFacts(old(Tables())) ==> NoDuplicateFacts(Tables()))
      ensures var m := MentionOf(env, entity, alias, audience, source, confidence);
        if m.None? then mentions == old(mentions)
        else
          && (Has(Tables(), m.value) <==> KeyOf(m.value) !in old(mentions) || SameMention(old(mentions)[KeyOf(m.value)], m.value))
          && mentions.Keys == old(mentions.Keys) + {KeyOf(m.value)}
      ensures forall key :: key in old(mentions) ==> key in mentions && mentions[key] == old(mentions)[key]
    {
      ghost var before := Tables();
      StepKeeps(env, before, GraphRuns.Op.RecordMention(entity, alias, audience, source, confidence));
      var id, folded := EntityId(env, entity), env.lower(Strip(alias));
      if folded == "" || id == "" { return; }
      var checked := Audience.Validate(audience);
      if checked.None? { return; }
      MentionStoredIff(env, before, entity, alias, audience, source, confidence);
      var key := checked.value + ":" + id + ":" + folded;
      if key !in mentions {
        mentions := mentions[key := Mention(id, folded, checked.value, source, confidence)];
      }
      assert Tables() == Mentioned(env, before, entity, alias, audience, source, confidence);
    }
  }

  /** Entities are exactly the ends of statements, mentions stand under their own keys, and a
      projection id names one statement. */
  predicate ValidTables(g: Graph) {
    EntitiesExact(g) && KeysFit(g) && OnePerProjection(g)
  }

  /** Every write but an audience move keeps the tables valid and free of duplicates. */
  lemma StepKeeps(env: Env, g: Graph, op: Op)
    requires ValidTables(g) && !op.Move?
    ensures ValidTables(Apply(env, g, op))
    ensures NoDuplicateFacts(g) ==> NoDuplicateFacts(Apply(env, g, op))
  {
    StepKeepsEntities(env, g, op);
    StepKeepsKeys(env, g, op);
    StepKeepsProjections(env, g, op);
    if NoDuplicateFacts(g) { StepKeepsUnique(env, g, op); }
  }

  lemma MoveKeepsValid(env: Env, g: Graph, turns: set<string>, audience: string)
    requires ValidTables(g) && Audience.Validate(audience).Some?
    ensures ValidTables(Moved(g, turns, Audience.Validate(audience).value))
  {
    StepKeepsEntities(env, g, Move(turns, audience));
    StepKeepsKeys(env, g, Move(turns, audience));
    StepKeepsProjections(env, g, Move(turns, audience));
  }

  lemma ForgotKeeps(env: Env, g: Graph, log: Log, column: KeyColumn, keys: set<string>, at: string, disk: Disk, stopped: bool,
                    h: Graph, after: Log)
    requires ValidTables(g) && Forgot(g, log, column, keys, at, disk, stopped, h, after)
    ensures ValidTables(h) && (NoDuplicateFacts(g) ==> NoDuplicateFacts(h))
  {
    assert h == g || h == HardForgotten(g, column, keys);
    HardForgetKeeps(env, g, column, keys);
  }

  lemma HardForgetKeeps(env: Env, g: Graph, column: KeyColumn, keys: set<string>)
    requires ValidTables(g)
    ensures ValidTables(HardForgotten(g, column, keys))
    ensures NoDuplicateFacts(g) ==> NoDuplicateFacts(HardForgotten(g, column, keys))
  {
    StepKeeps(env, g, HardForget(column, keys));
  }

  method Enumerate(ids: set<string>) returns (order: seq<string>)
    ensures Enumerates(order, ids)
    ensures forall i :: 0 <= i < |order| ==> order[i] in ids
  {
    order := SelectTop((a, b) => true, ids, |ids|);
    TopOfAll((a, b) => true, ids, |ids|, order);
  }

  lemma OneMoreSeen(candidates: set<string>, todo: set<string>, entity: string, referenced: set<string>)
    requires entity in todo && todo <= candidates
    ensures candidates - (todo - {entity}) - referenced
         == (candidates - todo - referenced) + (if entity in referenced then {} else {entity})
  {
  }

  lemma NothingGone(g: Graph)
    ensures forall gone :: gone == {} ==> WithoutEntities(g, gone) == g
  {
    assert (map m | m in g.mentions && g.mentions[m].entity !in {} :: g.mentions[m]) == g.mentions;
  }

  /** Deleting one more entity and its mentions. */
  lemma ForgetOne(g: Graph, gone: set<string>, entity: string)
    ensures var h := WithoutEntities(g, gone);
      WithoutEntities(g, gone + {entity})
        == Graph(h.statements, h.entities - {entity},
                 map m | m in h.mentions && h.mentions[m].entity != entity :: h.mentions[m])
  {
  }
}
