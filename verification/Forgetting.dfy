/** The receipts of a hard forget, and what a write to disk that fails, or is lost, does to them. */
module Forgetting {
  import opened Text
  import opened Ranking
  import opened KnowledgeGraph
  import opened GraphRuns
  import opened Timestamps

  /** What a hard forget leaves behind about one removed row: identifiers, no content. */
  datatype Receipt = Receipt(forgottenAt: string, statement: string, assertion: string, projection: string)

  function ReceiptFor(id: string, row: Statement, at: string): Receipt {
    Receipt(at, id, OrEmpty(row.assertion), OrEmpty(row.projection))
  }

  /** One file for each day. */
  type Log = map<string, seq<Receipt>>

  function DayOf(at: string): string {
    if |at| < 10 then at else at[..10]
  }

  function LinesOf(log: Log, day: string): seq<Receipt> {
    if day in log then log[day] else []
  }

  function Appended(log: Log, day: string, lines: seq<Receipt>): Log {
    log[day := LinesOf(log, day) + lines]
  }

  /** What the disk does with the lines written to it: keeps them, takes some and reports an error,
      or takes some and reports nothing. */
  datatype Disk = Keeps | Raises(landed: nat) | Loses(landed: nat)

  function Landed(disk: Disk, n: nat): nat {
    match disk
    case Keeps => n
    case Raises(k) => Min(k, n)
    case Loses(k) => Min(k, n)
  }

  /** The write is believed when nothing was raised and the file, read back, has at least as many
      lines as were just written. */
  predicate Believed(log: Log, day: string, n: nat, disk: Disk) {
    !disk.Raises? && |LinesOf(log, day)| + Landed(disk, n) >= n
  }

  /** The lines a silent loss leaves out go unnoticed. */
  predicate LossUnnoticed(log: Log, day: string, n: nat, disk: Disk) {
    disk.Loses? && Landed(disk, n) < n && Believed(log, day, n, disk)
  }

  predicate Enumerates(order: seq<string>, ids: set<string>) {
    NoDuplicates(order) && ToSet(order) == ids
  }

  /** The receipts of some rows of a graph, in an order. */
  function Receipts(g: Graph, order: seq<string>, at: string): (r: seq<Receipt>)
    requires ToSet(order) <= g.statements.Keys
    ensures |r| == |order|
  {
    seq(|order|, i requires 0 <= i < |order| && order[i] in ToSet(order) => ReceiptFor(order[i], g.statements[order[i]], at))
  }

  /** The log after a write of the receipts of these rows, some of which may not have landed. */
  ghost predicate Wrote(g: Graph, log: Log, doomed: set<string>, at: string, disk: Disk, after: Log)
    requires doomed <= g.statements.Keys
  {
    exists order: seq<string> :: Enumerates(order, doomed) && after == Appended(log, DayOf(at), FirstLines(g, order, at, disk))
  }

  function FirstLines(g: Graph, order: seq<string>, at: string, disk: Disk): seq<Receipt>
    requires ToSet(order) <= g.statements.Keys
  {
    Receipts(g, order, at)[..Landed(disk, |order|)]
  }

  /** A hard forget: the receipts, then the rows unless the write is not believed or the process
      stops in between. */
  ghost predicate Forgot(g: Graph, log: Log, column: KeyColumn, keys: set<string>, at: string, disk: Disk, stopped: bool,
                         h: Graph, after: Log)
  {
    var doomed := Keyed(g, column, keys);
    if doomed == {} then h == g && after == log
    else
      && Wrote(g, log, doomed, at, disk, after)
      && h == if stopped || !Believed(log, DayOf(at), |doomed|, disk) then g else HardForgotten(g, column, keys)
  }

  /** The line names the row, and its assertion and projection if it has them. */
  predicate Tells(line: Receipt, id: string, row: Statement) {
    && line.statement == id
    && line.assertion == (match row.assertion case None => "" case Some(a) => a)
    && line.projection == (match row.projection case None => "" case Some(p) => p)
  }

  predicate HasReceipt(log: Log, at: string, id: string, row: Statement) {
    exists i | 0 <= i < |LinesOf(log, DayOf(at))| ::
      Tells(LinesOf(log, DayOf(at))[i], id, row) && LinesOf(log, DayOf(at))[i].forgottenAt == at
  }

  predicate HasSomeReceipt(log: Log, id: string, row: Statement) {
    exists day | day in log :: exists i | 0 <= i < |log[day]| :: Tells(log[day][i], id, row)
  }

  /** The day's file of a normalised moment is named by its date. */
  lemma DayOfMoment(u: Stored)
    requires WellFormed(u)
    ensures DayOf(Written(u)) == DateText(match u case Day(d) => d case Full(c) => c.date)
  {
    var d := match u case Day(d) => d case Full(c) => c.date;
    assert Written(u)[..10] == DateText(d);
  }

  /** At every point at which it can stop, and whatever the disk reports: a row that has left the
      table has its receipt in the log, unless a silent loss goes unnoticed. */
  lemma RemovedRowsHaveReceipts(g: Graph, log: Log, column: KeyColumn, keys: set<string>, at: string, disk: Disk, stopped: bool,
                                h: Graph, after: Log, id: string)
    requires Forgot(g, log, column, keys, at, disk, stopped, h, after)
    requires !LossUnnoticed(log, DayOf(at), |Keyed(g, column, keys)|, disk)
    requires id in g.statements && id !in h.statements
    ensures HasReceipt(after, at, id, g.statements[id])
  {
    var doomed := Keyed(g, column, keys);
    assert id in doomed;
    WrittenHasReceipt(g, log, doomed, at, disk, after, id);
  }

  lemma WrittenHasReceipt(g: Graph, log: Log, doomed: set<string>, at: string, disk: Disk, after: Log, id: string)
    requires doomed <= g.statements.Keys && id in doomed && Wrote(g, log, doomed, at, disk, after)
    requires Landed(disk, |doomed|) == |doomed|
    ensures HasReceipt(after, at, id, g.statements[id])
  {
    var order: seq<string> :| Enumerates(order, doomed) && after == Appended(log, DayOf(at), FirstLines(g, order, at, disk));
    DistinctSize(order);
    assert id in ToSet(order);
    var i :| 0 <= i < |order| && order[i] == id;
    var lines := LinesOf(after, DayOf(at));
    assert lines[|LinesOf(log, DayOf(at))| + i] == ReceiptFor(id, g.statements[id], at);
    assert Tells(lines[|LinesOf(log, DayOf(at))| + i], id, g.statements[id]);
  }

  predicate RemovedHaveReceipts(g: Graph, h: Graph, log: Log, at: string) {
    forall id | id in g.statements && id !in h.statements :: HasReceipt(log, at, id, g.statements[id])
  }

  lemma AllRemovedHaveReceipts(g: Graph, log: Log, column: KeyColumn, keys: set<string>, at: string, disk: Disk, stopped: bool,
                               h: Graph, after: Log)
    requires Forgot(g, log, column, keys, at, disk, stopped, h, after)
    ensures LossUnnoticed(log, DayOf(at), |Keyed(g, column, keys)|, disk) || RemovedHaveReceipts(g, h, after, at)
  {
    if !LossUnnoticed(log, DayOf(at), |Keyed(g, column, keys)|, disk) {
      forall id | id in g.statements && id !in h.statements ensures HasReceipt(after, at, id, g.statements[id]) {
        RemovedRowsHaveReceipts(g, log, column, keys, at, disk, stopped, h, after, id);
      }
    }
  }

  /** Reading back counts the whole day. So rows go without a receipt exactly when the forget is not
      stopped, the disk silently loses lines, and the day had at least as many lines before as were
      lost. */
  lemma RowsGoWithoutReceiptIff(g: Graph, log: Log, column: KeyColumn, keys: set<string>, at: string, disk: Disk, stopped: bool,
                                h: Graph, after: Log)
    requires Forgot(g, log, column, keys, at, disk, stopped, h, after)
    requires forall id :: id in Keyed(g, column, keys) ==> !HasReceipt(log, at, id, g.statements[id])
    ensures var n := |Keyed(g, column, keys)|;
      !RemovedHaveReceipts(g, h, after, at)
      <==> !stopped && disk.Loses? && Landed(disk, n) < n && |LinesOf(log, DayOf(at))| >= n - Landed(disk, n)
  {
    var doomed := Keyed(g, column, keys);
    AllRemovedHaveReceipts(g, log, column, keys, at, disk, stopped, h, after);
    if !stopped && LossUnnoticed(log, DayOf(at), |doomed|, disk) {
      var id := LostRow(g, log, doomed, at, disk, after);
      assert id in doomed && id !in h.statements;
    }
  }

  lemma LostRow(g: Graph, log: Log, doomed: set<string>, at: string, disk: Disk, after: Log) returns (id: string)
    requires doomed <= g.statements.Keys && Wrote(g, log, doomed, at, disk, after) && Landed(disk, |doomed|) < |doomed|
    requires forall id :: id in doomed ==> !HasReceipt(log, at, id, g.statements[id])
    ensures id in doomed && !HasReceipt(after, at, id, g.statements[id])
  {
    var order: seq<string> :| Enumerates(order, doomed) && after == Appended(log, DayOf(at), FirstLines(g, order, at, disk));
    DistinctSize(order);
    var k := Landed(disk, |order|);
    id := order[k];
    assert id in ToSet(order);
    var lines := FirstLines(g, order, at, disk);
    forall i | 0 <= i < |lines| ensures !Tells(lines[i], id, g.statements[id]) {
      assert lines[i].statement == order[i] && order[i] != order[k];
    }
  }

  /** Receipts are never taken back. */
  lemma ReceiptsStay(g: Graph, log: Log, column: KeyColumn, keys: set<string>, at: string, disk: Disk, stopped: bool,
                     h: Graph, after: Log, day: string)
    requires Forgot(g, log, column, keys, at, disk, stopped, h, after)
    ensures LinesOf(log, day) <= LinesOf(after, day) && (day in log ==> day in after)
  {
  }

  /** The loss in full: on a day that already has as many receipts as rows are removed, a write of
      which nothing lands is believed, and the rows go without a receipt. */
  lemma LostReceiptsGoUnnoticed(g: Graph, log: Log, column: KeyColumn, keys: set<string>, at: string)
    requires 0 < |Keyed(g, column, keys)| <= |LinesOf(log, DayOf(at))|
    ensures Forgot(g, log, column, keys, at, Loses(0), false, HardForgotten(g, column, keys), log)
  {
    var doomed := Keyed(g, column, keys);
    var order := OrderOf(doomed);
    assert FirstLines(g, order, at, Loses(0)) == [];
    assert LinesOf(log, DayOf(at)) + [] == LinesOf(log, DayOf(at));
    assert Appended(log, DayOf(at), []) == log;
  }

  lemma {:induction false} OrderOf(ids: set<string>) returns (order: seq<string>)
    ensures Enumerates(order, ids)
    decreases |ids|
  {
    if ids == {} {
      order := [];
    } else {
      var id :| id in ids;
      var rest := OrderOf(ids - {id});
      order := [id] + rest;
      assert ToSet(order) == {id} + ToSet(rest);
      assert id !in ToSet(rest);
      assert NoDuplicates([id]);
      ConcatDisjoint([id], rest);
    }
  }

  // ---- over runs -----------------------------------------------------------

  datatype Books = Books(graph: Graph, log: Log)

  /** Any write of the graph; a hard forget with its moment, its disk and whether it is cut short. */
  datatype Entry = Plain(op: Op) | Forget(column: KeyColumn, keys: set<string>, at: string, disk: Disk, stopped: bool)

  ghost predicate Step(env: Env, a: Books, e: Entry, b: Books) {
    match e
    case Plain(op) => !op.HardForget? && b == a.(graph := Apply(env, a.graph, op))
    case Forget(column, keys, at, disk, stopped) => Forgot(a.graph, a.log, column, keys, at, disk, stopped, b.graph, b.log)
  }

  /** No silent loss goes unnoticed in this step. */
  predicate Noticed(a: Books, e: Entry) {
    e.Forget? ==> !LossUnnoticed(a.log, DayOf(e.at), |Keyed(a.graph, e.column, e.keys)|, e.disk)
  }

  ghost predicate Reaches(env: Env, a: Books, entries: seq<Entry>, b: Books)
    decreases |entries|
  {
    if entries == [] then a == b
    else exists m :: Step(env, a, entries[0], m) && Noticed(a, entries[0]) && Reaches(env, m, entries[1..], b)
  }

  /** The row is still stored, with its identifiers, or has its receipt. */
  predicate Accounted(b: Books, id: string, row: Statement) {
    || (id in b.graph.statements && b.graph.statements[id].assertion == row.assertion && b.graph.statements[id].projection == row.projection)
    || HasSomeReceipt(b.log, id, row)
  }

  lemma StepAccounts(env: Env, a: Books, e: Entry, b: Books, id: string, row: Statement)
    requires Step(env, a, e, b) && Noticed(a, e) && Accounted(a, id, row)
    ensures Accounted(b, id, row)
  {
    if HasSomeReceipt(a.log, id, row) {
      SomeReceiptStays(env, a, e, b, id, row);
    } else if e.Plain? {
      RowsStay(env, a.graph, e.op, id);
    } else if id !in b.graph.statements {
      RemovedRowsHaveReceipts(a.graph, a.log, e.column, e.keys, e.at, e.disk, e.stopped, b.graph, b.log, id);
      SomeReceipt(b.log, e.at, id, a.graph.statements[id]);
      SameReceipts(b.log, id, a.graph.statements[id], row);
    }
  }

  lemma SameReceipts(log: Log, id: string, row: Statement, other: Statement)
    requires row.assertion == other.assertion && row.projection == other.projection && HasSomeReceipt(log, id, row)
    ensures HasSomeReceipt(log, id, other)
  {
    var day :| day in log && exists i | 0 <= i < |log[day]| :: Tells(log[day][i], id, row);
    var i :| 0 <= i < |log[day]| && Tells(log[day][i], id, row);
    assert Tells(log[day][i], id, other);
  }

  lemma SomeReceiptStays(env: Env, a: Books, e: Entry, b: Books, id: string, row: Statement)
    requires Step(env, a, e, b) && HasSomeReceipt(a.log, id, row)
    ensures HasSomeReceipt(b.log, id, row)
  {
    if e.Forget? {
      var day :| day in a.log && exists i | 0 <= i < |a.log[day]| :: Tells(a.log[day][i], id, row);
      var i :| 0 <= i < |a.log[day]| && Tells(a.log[day][i], id, row);
      ReceiptsStay(a.graph, a.log, e.column, e.keys, e.at, e.disk, e.stopped, b.graph, b.log, day);
      assert b.log[day][i] == a.log[day][i];
    }
  }

  lemma SomeReceipt(log: Log, at: string, id: string, row: Statement)
    requires HasReceipt(log, at, id, row)
    ensures HasSomeReceipt(log, id, row)
  {
    var lines := LinesOf(log, DayOf(at));
    var i :| 0 <= i < |lines| && Tells(lines[i], id, row);
    assert Tells(log[DayOf(at)][i], id, row);
  }

  /** No write but a hard forget removes a row. */
  lemma RowsStay(env: Env, g: Graph, op: Op, id: string)
    requires id in g.statements && !op.HardForget?
    ensures id in Apply(env, g, op).statements
    ensures Apply(env, g, op).statements[id].assertion == g.statements[id].assertion
    ensures Apply(env, g, op).statements[id].projection == g.statements[id].projection
  {
    match op
    case Add(t, clock) => AddedKeepsRows(env, g, t, clock, id);
    case Supersede(c, clock) => SupersededKeepsRow(env, g, c, clock, id);
    case _ => if id in Apply(env, g, op).statements { StepKeepsRows(env, g, op, id); }
  }

  /** Over every run of writes, with hard forgets cut off anywhere: a row that was ever stored is
      still stored or has a receipt with its identifiers. */
  lemma {:induction false} EveryRowIsAccountedFor(env: Env, a: Books, entries: seq<Entry>, b: Books, id: string, row: Statement)
    requires Reaches(env, a, entries, b) && Accounted(a, id, row)
    ensures Accounted(b, id, row)
    decreases |entries|
  {
    if entries != [] {
      var m :| Step(env, a, entries[0], m) && Noticed(a, entries[0]) && Reaches(env, m, entries[1..], b);
      StepAccounts(env, a, entries[0], m, id, row);
      EveryRowIsAccountedFor(env, m, entries[1..], b, id, row);
    }
  }
}
