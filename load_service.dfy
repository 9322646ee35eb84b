/** The load path: each message becomes SQL text plus an ordered list of
    bound values (one multi-row INSERT per message, one UPDATE per changed
    row, one DELETE per row, a TRUNCATE), run on one executor and committed
    once at the end. */
module Load {
  import opened Etl
  import opened SqlText
  import opened SyncUtil
  import opened Executor

  /** SQL text and the values bound to its placeholders, in order. */
  datatype Statement = Statement(sql: string, values: seq<BoundValue>)

  // ---------------------------------------------------------------------
  // Column selection

  /** A new-row column counts as changed when the old row lacks it or holds
      a value that is not Objects.equals to it. */
  predicate Changed(c: EtlColumn, oldRow: Row) {
    var o := Get(oldRow, c.name);
    o.None? || !SameValue(c.value, o.value.value)
  }

  /** getChangedColumns, in the new row's order. */
  function ChangedColumns(data: Row, oldRow: Row): (r: seq<EtlColumn>)
    ensures forall c :: c in r <==> c in data && Changed(c, oldRow)
    ensures |r| <= |data|
  {
    if data == [] then []
    else
      var last := data[|data| - 1];
      ChangedColumns(data[..|data| - 1], oldRow) + (if Changed(last, oldRow) then [last] else [])
  }

  /** getKeys: the names of the key-flagged columns of a message's first row. */
  function Keys(first: Row): (r: set<string>)
    ensures forall c :: c in first && c.key ==> c.name in r
    ensures forall n :: n in r ==> exists c :: c in first && c.key && c.name == n
  {
    set c | c in first && c.key :: c.name
  }

  /** getKeyColumns: the row's columns whose names are keys, in row order. */
  function KeyColumns(keys: set<string>, row: Row): (r: seq<EtlColumn>)
    ensures forall c :: c in r <==> c in row && c.name in keys
    ensures |r| <= |row|
  {
    if row == [] then []
    else
      var last := row[|row| - 1];
      KeyColumns(keys, row[..|row| - 1]) + (if last.name in keys then [last] else [])
  }

  // ---------------------------------------------------------------------
  // Statement text as the builder calls produce it

  function BoundOf(cols: seq<EtlColumn>): (r: seq<BoundValue>)
    ensures |r| == |cols|
    ensures forall i :: 0 <= i < |cols| ==> r[i] == BoundValue(cols[i].sqlType, cols[i].value)
  {
    seq(|cols|, i requires 0 <= i < |cols| => BoundValue(cols[i].sqlType, cols[i].value))
  }

  /** Each column quoted and followed by `suffix`. */
  function ColumnList(q: string, cols: seq<EtlColumn>, suffix: string): string {
    if cols == [] then ""
    else ColumnList(q, cols[..|cols| - 1], suffix) + Quoted(q, cols[|cols| - 1].name) + suffix
  }

  function InsertHead(q: string, table: string, columns: seq<string>): string {
    DropLast("INSERT INTO " + Quoted(q, table) + " (" + QuotedEach(q, ",", columns), 1) + ") VALUES "
  }

  /** One placeholder group per row, sized by that row, each followed by a comma. */
  function RowGroups(rows: seq<Row>): string {
    if rows == [] then ""
    else RowGroups(rows[..|rows| - 1]) + DropLast("(" + Repeat("?,", |rows[|rows| - 1]|), 1) + "),"
  }

  predicate ColumnsPresent(columns: seq<string>, rows: seq<Row>) {
    forall i, j :: 0 <= i < |rows| && 0 <= j < |columns| ==> HasColumn(rows[i], columns[j])
  }

  /** One row's values in the column order of the first row. */
  function RowValues(columns: seq<string>, row: Row): (r: seq<BoundValue>)
    requires forall j :: 0 <= j < |columns| ==> HasColumn(row, columns[j])
    ensures |r| == |columns|
  {
    if columns == [] then []
    else
      assert HasColumn(row, columns[|columns| - 1]);
      var col := Get(row, columns[|columns| - 1]).value;
      RowValues(columns[..|columns| - 1], row) + [BoundValue(col.sqlType, col.value)]
  }

  function InsertValues(columns: seq<string>, rows: seq<Row>): (r: seq<BoundValue>)
    requires ColumnsPresent(columns, rows)
  {
    if rows == [] then []
    else InsertValues(columns, rows[..|rows| - 1]) + RowValues(columns, rows[|rows| - 1])
  }

  /** insert: one statement for all rows, or the NullPointerException a row
      without one of the first row's columns raises. */
  function InsertStatement(q: string, table: string, rows: seq<Row>): Option<Statement>
    requires rows != []
  {
    var columns := Names(rows[0]);
    if ColumnsPresent(columns, rows) then
      Some(Statement(DropLast(InsertHead(q, table, columns) + RowGroups(rows), 1), InsertValues(columns, rows)))
    else None
  }

  /** The UPDATE text for the changed columns and the key conditions. */
  function UpdateText(q: string, table: string, changed: seq<EtlColumn>, keyCols: seq<EtlColumn>): Statement {
    var setPart := DropLast("UPDATE " + Quoted(q, table) + " SET " + ColumnList(q, changed, "=?, "), 2);
    Statement(DropLast(setPart + " WHERE " + ColumnList(q, keyCols, "=? AND "), 4),
              BoundOf(changed) + BoundOf(keyCols))
  }

  /** update for one row: nothing when no column changed; the key columns
      are taken from the old row. */
  function UpdateStatement(q: string, table: string, keys: set<string>, data: Row, oldRow: Row): Option<Statement> {
    var changed := ChangedColumns(data, oldRow);
    if changed == [] then None
    else Some(UpdateText(q, table, changed, KeyColumns(keys, oldRow)))
  }

  function DeleteStatement(q: string, table: string, keys: set<string>, data: Row): Statement {
    var keyCols := KeyColumns(keys, data);
    Statement(DropLast("DELETE FROM " + Quoted(q, table) + " WHERE " + ColumnList(q, keyCols, "=? AND "), 4),
              BoundOf(keyCols))
  }

  function TruncateStatement(q: string, table: string): Statement {
    Statement("TRUNCATE TABLE " + Quoted(q, table), [])
  }

  // ---------------------------------------------------------------------
  // What a batch of messages asks the executor to run

  /** The runtime exceptions a malformed message raises before its next statement. */
  datatype Malformation =
    | NullData         // message.getData() is null
    | NullOldRows      // an UPDATE whose getOld() is null
    | OldRowMissing    // getOld().get(i) past the end of the old rows
    | ColumnMissing    // an INSERT row without one of the first row's columns

  /** The statements run in order, then the exception raised, if any. */
  datatype Plan = Plan(statements: seq<Statement>, error: Option<Malformation>)

  /** `next` runs only when `p` ended without an exception. */
  function Then(p: Plan, next: Plan): Plan {
    if p.error.Some? then p else Plan(p.statements + next.statements, next.error)
  }

  /** The steps one after another, stopping at the first exception. */
  function Sequence(steps: seq<Plan>): Plan {
    if steps == [] then Plan([], None)
    else Then(Sequence(steps[..|steps| - 1]), steps[|steps| - 1])
  }

  function InsertPlan(q: string, table: string, rows: seq<Row>): Plan
    requires rows != []
  {
    match InsertStatement(q, table, rows)
    case Some(s) => Plan([s], None)
    case None => Plan([], Some(ColumnMissing))
  }

  function UpdateRowPlan(q: string, table: string, keys: set<string>, data: Row, oldRow: Row): Plan {
    match UpdateStatement(q, table, keys, data, oldRow)
    case None => Plan([], None)
    case Some(s) => Plan([s], None)
  }

  /** update(message): row i against old row i, keys from the first new row. */
  function UpdateSteps(q: string, table: string, rows: seq<Row>, oldRows: Option<seq<Row>>): (r: seq<Plan>)
    requires rows != []
    ensures |r| == |rows|
  {
    var keys := Keys(rows[0]);
    seq(|rows|, i requires 0 <= i < |rows| =>
      if oldRows.None? then Plan([], Some(NullOldRows))
      else if i >= |oldRows.value| then Plan([], Some(OldRowMissing))
      else UpdateRowPlan(q, table, keys, rows[i], oldRows.value[i]))
  }

  function DeleteSteps(q: string, table: string, rows: seq<Row>): (r: seq<Plan>)
    requires rows != []
    ensures |r| == |rows|
  {
    var keys := Keys(rows[0]);
    seq(|rows|, i requires 0 <= i < |rows| => Plan([DeleteStatement(q, table, keys, rows[i])], None))
  }

  function TruncatePlan(q: string, table: string): Plan {
    Plan([TruncateStatement(q, table)], None)
  }

  /** One message: skipped when its data is empty, dispatched on the exact
      type string, and ignored when the type is none of the four. */
  function MessagePlan(q: string, m: EtlMessage): Plan {
    if m.data.None? then Plan([], Some(NullData))
    else if m.data.value == [] then Plan([], None)
    else
      var rows := m.data.value;
      if m.eventType == "INSERT" then InsertPlan(q, m.table, rows)
      else if m.eventType == "UPDATE" then Sequence(UpdateSteps(q, m.table, rows, m.oldRows))
      else if m.eventType == "DELETE" then Sequence(DeleteSteps(q, m.table, rows))
      else if m.eventType == "TRUNCATE" then TruncatePlan(q, m.table)
      else Plan([], None)
  }

  function MessageSteps(q: string, msgs: seq<EtlMessage>): (r: seq<Plan>)
    ensures |r| == |msgs|
  {
    seq(|msgs|, i requires 0 <= i < |msgs| => MessagePlan(q, msgs[i]))
  }

  function LoadPlan(q: string, msgs: seq<EtlMessage>): Plan {
    Sequence(MessageSteps(q, msgs))
  }

  // ---------------------------------------------------------------------
  // The apply cycle as seen by the JDBC layer

  datatype LoadOutcome =
    | Loaded                                            // committed
    | Malformed(reason: Malformation)                   // runtime exception, no commit, no rollback
    | StatementFailed(ordinal: nat, cause: CallOutcome) // statement `ordinal` threw, no commit, no rollback
    | CommitRolledBack                                  // commit threw, rollback done, wrapped error rethrown
    | RollbackFailed                                    // commit threw, then rollback threw too

  function RunCalls(conn: nat, stmts: seq<Statement>): (r: seq<JdbcCall>)
    ensures |r| == |stmts|
    ensures forall i :: 0 <= i < |stmts| ==> r[i] == Ran(conn, stmts[i].sql, Bindings(stmts[i].values))
  {
    seq(|stmts|, i requires 0 <= i < |stmts| => Ran(conn, stmts[i].sql, Bindings(stmts[i].values)))
  }

  /** The calls recorded once `done` have run on a fresh executor. */
  function CycleCalls(acquire: AcquireOutcome, done: seq<Statement>): seq<JdbcCall> {
    (if done == [] then [] else Prologue(0, acquire)) + RunCalls(0, done)
  }

  /** How many of `n` statements run before one throws: the connection is
      missing, or statement number base + j is among the `failing` ones. */
  function FirstFailure(acquire: AcquireOutcome, failing: set<nat>, base: nat, n: nat): (j: nat)
    ensures j <= n
    ensures j > 0 ==> acquire != GetConnectionFails
    ensures forall k :: base <= k < base + j ==> k !in failing
    ensures j < n ==> acquire == GetConnectionFails || base + j in failing
    decreases n
  {
    if n == 0 then 0
    else
      var j := FirstFailure(acquire, failing, base, n - 1);
      if j < n - 1 then j
      else if acquire == GetConnectionFails || base + n - 1 in failing then n - 1
      else n
  }

  function CauseOf(acquire: AcquireOutcome): CallOutcome {
    if acquire == GetConnectionFails then NoConnection else SqlError
  }

  datatype Cycle = Cycle(outcome: LoadOutcome, calls: seq<JdbcCall>)

  /** load: run the plan's statements until one throws or a malformed
      message throws; otherwise commit once, and roll back only when the
      commit throws. The executor is never closed. */
  function ExpectedLoad(q: string, msgs: seq<EtlMessage>, acquire: AcquireOutcome, failing: set<nat>,
                        commitFails: bool, rollbackFails: bool): Cycle
  {
    var p := LoadPlan(q, msgs);
    var n := |p.statements|;
    var j := FirstFailure(acquire, failing, 0, n);
    if j < n then Cycle(StatementFailed(j, CauseOf(acquire)), Prologue(0, acquire) + RunCalls(0, p.statements[..j]))
    else if p.error.Some? then Cycle(Malformed(p.error.value), CycleCalls(acquire, p.statements))
    else
      var attempted := Prologue(0, acquire) + RunCalls(0, p.statements);
      if acquire == GetConnectionFails then Cycle(RollbackFailed, attempted)
      else if !commitFails then Cycle(Loaded, attempted + [Committed(0)])
      else if !rollbackFails then Cycle(CommitRolledBack, attempted + [RolledBack(0)])
      else Cycle(RollbackFailed, attempted)
  }

  // ---------------------------------------------------------------------
  // Executor state during one cycle

  /** The executor's fields at one moment. */
  datatype ExecState = ExecState(conn: Option<nat>, idx: int, handedOut: nat, calls: seq<JdbcCall>)

  function StateOf(e: BatchExecutor): (st: ExecState)
    reads e
    ensures st.conn == e.conn && st.idx == e.idx && st.handedOut == e.handedOut && st.calls == e.calls
  {
    ExecState(e.conn, e.idx, e.handedOut, e.calls)
  }

  /** `done` ran, in order, on a fresh executor, and nothing else happened. */
  predicate Executed(st: ExecState, acquire: AcquireOutcome, done: seq<Statement>) {
    (acquire == GetConnectionFails ==> done == [])
    && st.calls == CycleCalls(acquire, done)
    && st.conn == (if done == [] then None else Some(0))
    && st.handedOut == (if done == [] then 0 else 1)
    && st.idx == |done|
  }

  /** After `done`, plan `p` ran to its end without an exception. */
  predicate Progress(st: ExecState, acquire: AcquireOutcome, failing: set<nat>, done: seq<Statement>, p: Plan) {
    p.error.None?
    && FirstFailure(acquire, failing, |done|, |p.statements|) == |p.statements|
    && Executed(st, acquire, done + p.statements)
  }

  /** Statement number |ran| threw after `ran` had run. */
  predicate Stopped(st: ExecState, acquire: AcquireOutcome, ran: seq<Statement>, r: Option<LoadOutcome>) {
    r == Some(StatementFailed(|ran|, CauseOf(acquire)))
    && st.idx == |ran|
    && st.calls == Prologue(0, acquire) + RunCalls(0, ran)
  }

  /** Every statement of `p` ran after `done`; `r` reports p's own exception, if any. */
  predicate Finished(st: ExecState, acquire: AcquireOutcome, done: seq<Statement>, p: Plan, r: Option<LoadOutcome>) {
    r == (if p.error.Some? then Some(Malformed(p.error.value)) else None)
    && Executed(st, acquire, done + p.statements)
  }

  /** After `done`, plan `p` was attempted and `r` reports how it ended:
      None when it ran through, otherwise the exception that stopped it. */
  predicate After(st: ExecState, acquire: AcquireOutcome, failing: set<nat>, done: seq<Statement>,
                  p: Plan, r: Option<LoadOutcome>)
  {
    var j := FirstFailure(acquire, failing, |done|, |p.statements|);
    if j < |p.statements| then Stopped(st, acquire, done + p.statements[..j], r)
    else Finished(st, acquire, done, p, r)
  }

  lemma {:induction false} SequencePrefix(steps: seq<Plan>, k: nat)
    requires k <= |steps|
    ensures Sequence(steps[..k]).statements <= Sequence(steps).statements
    ensures Sequence(steps[..k]).error.Some? ==> Sequence(steps) == Sequence(steps[..k])
  {
    if k < |steps| {
      var init := steps[..|steps| - 1];
      SequencePrefix(init, k);
      assert init[..k] == steps[..k];
    } else {
      assert steps[..k] == steps;
    }
  }

  lemma {:induction false} FirstFailureIs(acquire: AcquireOutcome, failing: set<nat>, base: nat, n: nat, j: nat)
    requires j <= n
    requires j > 0 ==> acquire != GetConnectionFails
    requires forall k :: base <= k < base + j ==> k !in failing
    requires j < n ==> acquire == GetConnectionFails || base + j in failing
    ensures FirstFailure(acquire, failing, base, n) == j
  {
  }

  /** A statement of `m` that throws after `p` ran through is the first
      statement to throw in any plan that begins with p's and m's statements. */
  lemma {:induction false} FailureInside(acquire: AcquireOutcome, failing: set<nat>, base: nat, p: seq<Statement>, m: seq<Statement>,
                      whole: seq<Statement>)
    requires FirstFailure(acquire, failing, base, |p|) == |p|
    requires FirstFailure(acquire, failing, base + |p|, |m|) < |m|
    requires p + m <= whole
    ensures FirstFailure(acquire, failing, base, |whole|) == |p| + FirstFailure(acquire, failing, base + |p|, |m|)
    ensures whole[..|p| + FirstFailure(acquire, failing, base + |p|, |m|)]
            == p + m[..FirstFailure(acquire, failing, base + |p|, |m|)]
  {
    var j := FirstFailure(acquire, failing, base + |p|, |m|);
    FirstFailureIs(acquire, failing, base, |whole|, |p| + j);
    assert whole[..|p| + |m|] == p + m;
    assert whole[..|p| + j] == (p + m)[..|p| + j];
  }

  lemma {:induction false} NoFailure(acquire: AcquireOutcome, failing: set<nat>, base: nat, p: seq<Statement>, m: seq<Statement>)
    requires FirstFailure(acquire, failing, base, |p|) == |p|
    requires FirstFailure(acquire, failing, base + |p|, |m|) == |m|
    ensures FirstFailure(acquire, failing, base, |p + m|) == |p + m|
  {
    FirstFailureIs(acquire, failing, base, |p + m|, |p + m|);
  }

  lemma {:induction false} PrefixSlice(done: seq<Statement>, p: seq<Statement>, m: seq<Statement>, whole: seq<Statement>,
                                       j: nat, k: nat)
    requires j <= |m| && p + m <= whole && k == |p| + j
    ensures done + whole[..k] == (done + p) + m[..j]
  {
    assert whole[..k] == p + m[..j];
  }

  lemma {:induction false} StepFailed(st: ExecState, acquire: AcquireOutcome, failing: set<nat>, done: seq<Statement>,
                   p: seq<Statement>, m: Plan, whole: seq<Statement>, r: Option<LoadOutcome>)
    requires FirstFailure(acquire, failing, |done|, |p|) == |p|
    requires FirstFailure(acquire, failing, |done| + |p|, |m.statements|) < |m.statements|
    requires p + m.statements <= whole
    requires Stopped(st, acquire, (done + p) + m.statements[..FirstFailure(acquire, failing, |done| + |p|, |m.statements|)], r)
    ensures FirstFailure(acquire, failing, |done|, |whole|) < |whole|
    ensures Stopped(st, acquire, done + whole[..FirstFailure(acquire, failing, |done|, |whole|)], r)
  {
    var j := FirstFailure(acquire, failing, |done| + |p|, |m.statements|);
    FailureInside(acquire, failing, |done|, p, m.statements, whole);
    var k := FirstFailure(acquire, failing, |done|, |whole|);
    PrefixSlice(done, p, m.statements, whole, j, k);
  }

  lemma {:induction false} StepRanThrough(st: ExecState, acquire: AcquireOutcome, failing: set<nat>, done: seq<Statement>,
                       p: seq<Statement>, m: Plan, r: Option<LoadOutcome>)
    requires FirstFailure(acquire, failing, |done|, |p|) == |p|
    requires FirstFailure(acquire, failing, |done| + |p|, |m.statements|) == |m.statements|
    requires After(st, acquire, failing, done + p, m, r)
    ensures After(st, acquire, failing, done, Plan(p + m.statements, m.error), r)
  {
    NoFailure(acquire, failing, |done|, p, m.statements);
    assert (done + p) + m.statements == done + (p + m.statements);
  }

  /** Step i extends the sequence of steps 0..i-1, and the whole sequence
      begins with it. */
  lemma {:induction false} SequenceGrows(steps: seq<Plan>, i: nat)
    requires i < |steps| && Sequence(steps[..i]).error.None?
    ensures Sequence(steps[..i + 1]) == Plan(Sequence(steps[..i]).statements + steps[i].statements, steps[i].error)
    ensures Sequence(steps[..i]).statements + steps[i].statements <= Sequence(steps).statements
    ensures steps[i].error.Some? ==> Sequence(steps) == Sequence(steps[..i + 1])
  {
    assert steps[..i + 1][..i] == steps[..i];
    SequencePrefix(steps, i + 1);
  }

  /** Attempting step i after steps 0..i-1 ran through is attempting the
      whole sequence, as far as the step got. */
  lemma {:induction false} SequenceStep(st: ExecState, acquire: AcquireOutcome, failing: set<nat>, done: seq<Statement>,
                     steps: seq<Plan>, i: nat, r: Option<LoadOutcome>)
    requires i < |steps|
    requires Sequence(steps[..i]).error.None?
    requires FirstFailure(acquire, failing, |done|, |Sequence(steps[..i]).statements|) == |Sequence(steps[..i]).statements|
    requires After(st, acquire, failing, done + Sequence(steps[..i]).statements, steps[i], r)
    ensures r.Some? ==> After(st, acquire, failing, done, Sequence(steps), r)
    ensures r.None? ==> Progress(st, acquire, failing, done, Sequence(steps[..i + 1]))
  {
    var p := Sequence(steps[..i]).statements;
    SequenceGrows(steps, i);
    if FirstFailure(acquire, failing, |done + p|, |steps[i].statements|) < |steps[i].statements| {
      SequenceStepFailed(st, acquire, failing, done, p, steps[i], Sequence(steps), r);
    } else {
      SequenceStepThrough(st, acquire, failing, done, p, steps[i], Sequence(steps), r);
    }
  }

  lemma {:induction false} SequenceStepFailed(st: ExecState, acquire: AcquireOutcome, failing: set<nat>,
                                              done: seq<Statement>, p: seq<Statement>, m: Plan, whole: Plan,
                                              r: Option<LoadOutcome>)
    requires FirstFailure(acquire, failing, |done|, |p|) == |p|
    requires FirstFailure(acquire, failing, |done + p|, |m.statements|) < |m.statements|
    requires p + m.statements <= whole.statements
    requires After(st, acquire, failing, done + p, m, r)
    ensures r.Some? && After(st, acquire, failing, done, whole, r)
  {
    StepFailed(st, acquire, failing, done, p, m, whole.statements, r);
  }

  lemma {:induction false} SequenceStepThrough(st: ExecState, acquire: AcquireOutcome, failing: set<nat>,
                                               done: seq<Statement>, p: seq<Statement>, m: Plan, whole: Plan,
                                               r: Option<LoadOutcome>)
    requires FirstFailure(acquire, failing, |done|, |p|) == |p|
    requires FirstFailure(acquire, failing, |done + p|, |m.statements|) == |m.statements|
    requires m.error.Some? ==> whole == Plan(p + m.statements, m.error)
    requires After(st, acquire, failing, done + p, m, r)
    ensures r.Some? ==> After(st, acquire, failing, done, whole, r)
    ensures r.None? ==> Progress(st, acquire, failing, done, Plan(p + m.statements, m.error))
  {
    StepRanThrough(st, acquire, failing, done, p, m, r);
    NoFailure(acquire, failing, |done|, p, m.statements);
  }

  /** Before the first step nothing of the sequence has run. */
  lemma {:induction false} ProgressStart(st: ExecState, acquire: AcquireOutcome, failing: set<nat>, done: seq<Statement>,
                                         steps: seq<Plan>)
    requires Executed(st, acquire, done)
    ensures Progress(st, acquire, failing, done, Sequence(steps[..0]))
  {
    assert steps[..0] == [];
    assert done + [] == done;
  }

  /** A plan that ran to its end without an exception was attempted with
      no outcome to report. */
  lemma {:induction false} ProgressIsAfter(st: ExecState, acquire: AcquireOutcome, failing: set<nat>, done: seq<Statement>,
                                           steps: seq<Plan>, i: nat)
    requires i == |steps|
    requires Progress(st, acquire, failing, done, Sequence(steps[..i]))
    ensures After(st, acquire, failing, done, Sequence(steps), None)
  {
    assert steps[..i] == steps;
  }

  /** One statement through the executor; `failing` names the statement
      ordinals the driver rejects. */
  method Run(e: BatchExecutor, acquire: AcquireOutcome, failing: set<nat>, ghost done: seq<Statement>, s: Statement)
    returns (r: CallOutcome)
    requires Executed(StateOf(e), acquire, done)
    modifies e
    ensures After(StateOf(e), acquire, failing, done, Plan([s], None), if r == Done then None else Some(StatementFailed(|done|, r)))
    ensures r != Done ==> r == CauseOf(acquire) && e.idx == |done|
  {
    r := e.Execute(s.sql, s.values, acquire, e.idx in failing);
    if r == Done {
      FirstFailureIs(acquire, failing, |done|, 1, 1);
      assert RunCalls(0, done + [s]) == RunCalls(0, done) + [Ran(0, s.sql, Bindings(s.values))];
    } else {
      FirstFailureIs(acquire, failing, |done|, 1, 0);
      assert [s][..0] == [];
      assert done + [s][..0] == done;
    }
  }

  // ---------------------------------------------------------------------
  // Building the statements

  /** getChangedColumns as the source runs it: one pass over the new row. */
  method GetChangedColumns(data: Row, oldRow: Row) returns (changed: seq<EtlColumn>)
    ensures changed == ChangedColumns(data, oldRow)
  {
    changed := [];
    var i := 0;
    while i < |data|
      invariant 0 <= i <= |data|
      invariant changed == ChangedColumns(data[..i], oldRow)
    {
      assert data[..i + 1][..i] == data[..i];
      var column := data[i];
      var oldColumn := Get(oldRow, column.name);
      if oldColumn.None? || !SameValue(column.value, oldColumn.value.value) {
        changed := changed + [column];
      }
      i := i + 1;
    }
    assert data[..i] == data;
  }

  lemma {:induction false} ColumnStep(q: string, cols: seq<EtlColumn>, i: nat, suffix: string)
    requires i < |cols|
    ensures ColumnList(q, cols[..i + 1], suffix) == ColumnList(q, cols[..i], suffix) + Quoted(q, cols[i].name) + suffix
    ensures BoundOf(cols[..i + 1]) == BoundOf(cols[..i]) + [BoundValue(cols[i].sqlType, cols[i].value)]
  {
    assert cols[..i + 1][..i] == cols[..i];
  }

  /** The loop shared by the SET list and the key conditions: each column
      quoted and followed by `suffix`, its value bound in the same order. */
  method AppendColumns(sql: SqlBuilder, values: ValueList, cols: seq<EtlColumn>, suffix: string)
    modifies sql`buffer, values
    ensures sql.buffer == old(sql.buffer) + ColumnList(sql.backtick, cols, suffix)
    ensures values.items == old(values.items) + BoundOf(cols)
  {
    var i := 0;
    while i < |cols|
      invariant 0 <= i <= |cols|
      invariant sql.buffer == old(sql.buffer) + ColumnList(sql.backtick, cols[..i], suffix)
      invariant values.items == old(values.items) + BoundOf(cols[..i])
    {
      ColumnStep(sql.backtick, cols, i, suffix);
      ghost var text := sql.buffer;
      sql.AppendWithBacktick(cols[i].name);
      sql.Append(suffix);
      assert sql.buffer == text + (Quoted(sql.backtick, cols[i].name) + suffix);
      SetValue(values, cols[i].sqlType, cols[i].value);
      i := i + 1;
    }
    assert cols[..i] == cols;
  }

  /** One INSERT row's values in the first row's column order; false at the
      first column the row lacks (where the source dereferences null). */
  method AppendRowValues(values: ValueList, columnNames: seq<string>, data: Row) returns (complete: bool)
    modifies values
    ensures complete <==> forall j :: 0 <= j < |columnNames| ==> HasColumn(data, columnNames[j])
    ensures complete ==> values.items == old(values.items) + RowValues(columnNames, data)
  {
    var k := 0;
    while k < |columnNames|
      invariant 0 <= k <= |columnNames|
      invariant forall j :: 0 <= j < k ==> HasColumn(data, columnNames[j])
      invariant values.items == old(values.items) + RowValues(columnNames[..k], data)
    {
      assert columnNames[..k + 1][..k] == columnNames[..k];
      var column := Get(data, columnNames[k]);
      if column.None? {
        return false;
      }
      SetValue(values, column.value.sqlType, column.value.value);
      k := k + 1;
    }
    assert columnNames[..k] == columnNames;
    complete := true;
  }

  lemma AppendAssoc(a: string, b: string, c: string, d: string)
    ensures a + b + c + d == a + (b + c + d)
  {
  }

  lemma {:induction false} InsertStep(columns: seq<string>, rows: seq<Row>, i: nat)
    requires i < |rows|
    requires ColumnsPresent(columns, rows[..i])
    requires forall j :: 0 <= j < |columns| ==> HasColumn(rows[i], columns[j])
    ensures ColumnsPresent(columns, rows[..i + 1])
    ensures RowGroups(rows[..i + 1]) == RowGroups(rows[..i]) + DropLast("(" + Repeat("?,", |rows[i]|), 1) + "),"
    ensures InsertValues(columns, rows[..i + 1]) == InsertValues(columns, rows[..i]) + RowValues(columns, rows[i])
  {
    assert rows[..i + 1][..i] == rows[..i];
    assert ColumnsPresent(columns, rows[..i + 1]);
  }

  /** One row's placeholder group: "(", n placeholders separated by commas, "),". */
  method AppendPlaceholders(sql: SqlBuilder, n: nat)
    modifies sql`buffer
    ensures sql.buffer == old(sql.buffer) + DropLast("(" + Repeat("?,", n), 1) + "),"
  {
    ghost var before := sql.buffer;
    sql.Append("(");
    sql.AppendRepeat(n, "?,");
    assert sql.buffer == before + ("(" + Repeat("?,", n));
    sql.DeleteBehind(1);
    DropLastOfConcat(before, "(" + Repeat("?,", n), 1);
    sql.Append("),");
  }

  method BuildInsert(q: string, table: string, rows: seq<Row>) returns (s: Option<Statement>)
    requires rows != []
    ensures s == InsertStatement(q, table, rows)
  {
    var columnNames := Names(rows[0]);
    var values := new ValueList();
    var sql := new SqlBuilder(q);
    sql.Append("INSERT INTO ");
    sql.AppendWithBacktick(table);
    sql.Append(" (");
    assert sql.buffer == "INSERT INTO " + Quoted(q, table) + " (";
    sql.AppendJoinWithBacktick(",", columnNames);
    sql.DeleteBehind(1);
    sql.Append(") VALUES ");
    assert sql.buffer == InsertHead(q, table, columnNames) + RowGroups(rows[..0]);
    var i := 0;
    while i < |rows|
      invariant 0 <= i <= |rows|
      invariant ColumnsPresent(columnNames, rows[..i])
      invariant sql.buffer == InsertHead(q, table, columnNames) + RowGroups(rows[..i])
      invariant values.items == InsertValues(columnNames, rows[..i])
    {
      var data := rows[i];
      AppendPlaceholders(sql, |data|);
      var complete := AppendRowValues(values, columnNames, data);
      if !complete {
        return None;
      }
      InsertStep(columnNames, rows, i);
      AppendAssoc(InsertHead(q, table, columnNames), RowGroups(rows[..i]), DropLast("(" + Repeat("?,", |data|), 1), "),");
      i := i + 1;
    }
    assert rows[..i] == rows;
    sql.DeleteBehind(1);
    var text := sql.ToString();
    s := Some(Statement(text, values.items));
  }

  /** The text-building half of update(row). */
  method RenderUpdate(q: string, table: string, changed: seq<EtlColumn>, keyCols: seq<EtlColumn>) returns (s: Statement)
    ensures s == UpdateText(q, table, changed, keyCols)
  {
    var values := new ValueList();
    var sql := new SqlBuilder(q);
    sql.Append("UPDATE ");
    sql.AppendWithBacktick(table);
    sql.Append(" SET ");
    assert sql.buffer == "UPDATE " + Quoted(q, table) + " SET ";
    AppendColumns(sql, values, changed, "=?, ");
    sql.DeleteBehind(2);
    ghost var setPart := sql.buffer;
    assert setPart == DropLast("UPDATE " + Quoted(q, table) + " SET " + ColumnList(q, changed, "=?, "), 2);
    sql.Append(" WHERE ");
    AppendColumns(sql, values, keyCols, "=? AND ");
    assert sql.buffer == setPart + " WHERE " + ColumnList(q, keyCols, "=? AND ");
    sql.DeleteBehind(4);
    var text := sql.ToString();
    s := Statement(text, values.items);
  }

  method BuildUpdate(q: string, table: string, keys: set<string>, data: Row, oldRow: Row) returns (s: Option<Statement>)
    ensures s == UpdateStatement(q, table, keys, data, oldRow)
  {
    var changed := GetChangedColumns(data, oldRow);
    if changed == [] {
      return None;
    }
    var keyCols := KeyColumns(keys, oldRow);
    var text := RenderUpdate(q, table, changed, keyCols);
    s := Some(text);
  }

  method BuildDelete(q: string, table: string, keys: set<string>, data: Row) returns (s: Statement)
    ensures s == DeleteStatement(q, table, keys, data)
  {
    var values := new ValueList();
    var keyCols := KeyColumns(keys, data);
    var sql := new SqlBuilder(q);
    sql.Append("DELETE FROM ");
    sql.AppendWithBacktick(table);
    sql.Append(" WHERE ");
    assert sql.buffer == "DELETE FROM " + Quoted(q, table) + " WHERE ";
    AppendColumns(sql, values, keyCols, "=? AND ");
    sql.DeleteBehind(4);
    var text := sql.ToString();
    s := Statement(text, values.items);
  }

  method BuildTruncate(q: string, table: string) returns (s: Statement)
    ensures s == TruncateStatement(q, table)
  {
    var sql := new SqlBuilder(q);
    sql.Append("TRUNCATE TABLE ");
    sql.AppendWithBacktick(table);
    assert sql.buffer == "TRUNCATE TABLE " + Quoted(q, table);
    var text := sql.ToString();
    s := Statement(text, []);
  }

  // ---------------------------------------------------------------------
  // Running the messages

  method Insert(e: BatchExecutor, q: string, table: string, rows: seq<Row>,
                acquire: AcquireOutcome, failing: set<nat>, ghost done: seq<Statement>)
    returns (r: Option<LoadOutcome>)
    requires rows != [] && Executed(StateOf(e), acquire, done)
    modifies e
    ensures After(StateOf(e), acquire, failing, done, InsertPlan(q, table, rows), r)
  {
    var s := BuildInsert(q, table, rows);
    if s.None? {
      return Some(Malformed(ColumnMissing));
    }
    var res := Run(e, acquire, failing, done, s.value);
    r := if res == Done then None else Some(StatementFailed(e.idx, res));
  }

  /** update(row): nothing runs when no column changed. */
  method UpdateRow(e: BatchExecutor, q: string, table: string, keys: set<string>, data: Row, oldRow: Row,
                   acquire: AcquireOutcome, failing: set<nat>, ghost done: seq<Statement>)
    returns (r: Option<LoadOutcome>)
    requires Executed(StateOf(e), acquire, done)
    modifies e
    ensures After(StateOf(e), acquire, failing, done, UpdateRowPlan(q, table, keys, data, oldRow), r)
  {
    var s := BuildUpdate(q, table, keys, data, oldRow);
    if s.None? {
      return None;
    }
    var res := Run(e, acquire, failing, done, s.value);
    r := if res == Done then None else Some(StatementFailed(e.idx, res));
  }

  /** A plan that throws before running anything. */
  lemma {:induction false} Rejected(st: ExecState, acquire: AcquireOutcome, failing: set<nat>, done: seq<Statement>,
                                    reason: Malformation)
    requires Executed(st, acquire, done)
    ensures After(st, acquire, failing, done, Plan([], Some(reason)), Some(Malformed(reason)))
  {
    assert done + [] == done;
  }

  /** Row i of update(message): the old-row checks, then update(row). */
  method UpdateStep(e: BatchExecutor, q: string, table: string, keys: set<string>, rows: seq<Row>,
                    oldRows: Option<seq<Row>>, i: nat, acquire: AcquireOutcome, failing: set<nat>,
                    ghost done: seq<Statement>)
    returns (r: Option<LoadOutcome>)
    requires i < |rows| && keys == Keys(rows[0]) && Executed(StateOf(e), acquire, done)
    modifies e
    ensures After(StateOf(e), acquire, failing, done, UpdateSteps(q, table, rows, oldRows)[i], r)
  {
    if oldRows.None? {
      Rejected(StateOf(e), acquire, failing, done, NullOldRows);
      return Some(Malformed(NullOldRows));
    } else if i >= |oldRows.value| {
      Rejected(StateOf(e), acquire, failing, done, OldRowMissing);
      return Some(Malformed(OldRowMissing));
    }
    r := UpdateRow(e, q, table, keys, rows[i], oldRows.value[i], acquire, failing, done);
  }

  method Update(e: BatchExecutor, q: string, table: string, rows: seq<Row>, oldRows: Option<seq<Row>>,
                acquire: AcquireOutcome, failing: set<nat>, ghost done: seq<Statement>)
    returns (r: Option<LoadOutcome>)
    requires rows != [] && Executed(StateOf(e), acquire, done)
    modifies e
    ensures After(StateOf(e), acquire, failing, done, Sequence(UpdateSteps(q, table, rows, oldRows)), r)
  {
    var keys := Keys(rows[0]);
    ghost var steps := UpdateSteps(q, table, rows, oldRows);
    ProgressStart(StateOf(e), acquire, failing, done, steps);
    r := None;
    var i := 0;
    while i < |rows| && r.None?
      invariant 0 <= i <= |rows|
      invariant r.None? ==> Progress(StateOf(e), acquire, failing, done, Sequence(steps[..i]))
      invariant r.Some? ==> After(StateOf(e), acquire, failing, done, Sequence(steps), r)
    {
      r := UpdateNext(e, q, table, keys, rows, oldRows, i, acquire, failing, done);
      i := i + 1;
    }
    if r.None? {
      ProgressIsAfter(StateOf(e), acquire, failing, done, steps, i);
    }
  }

  /** Row i of update(message), after rows 0..i-1 ran through. */
  method UpdateNext(e: BatchExecutor, q: string, table: string, keys: set<string>, rows: seq<Row>,
                    oldRows: Option<seq<Row>>, i: nat, acquire: AcquireOutcome, failing: set<nat>,
                    ghost done: seq<Statement>)
    returns (step: Option<LoadOutcome>)
    requires i < |rows| && keys == Keys(rows[0])
    requires Progress(StateOf(e), acquire, failing, done, Sequence(UpdateSteps(q, table, rows, oldRows)[..i]))
    modifies e
    ensures step.Some? ==> After(StateOf(e), acquire, failing, done, Sequence(UpdateSteps(q, table, rows, oldRows)), step)
    ensures step.None? ==> Progress(StateOf(e), acquire, failing, done, Sequence(UpdateSteps(q, table, rows, oldRows)[..i + 1]))
  {
    ghost var steps := UpdateSteps(q, table, rows, oldRows);
    ghost var d := done + Sequence(steps[..i]).statements;
    step := UpdateStep(e, q, table, keys, rows, oldRows, i, acquire, failing, d);
    SequenceStep(StateOf(e), acquire, failing, done, steps, i, step);
  }

  /** Row i of delete(message): delete(row). */
  method DeleteStep(e: BatchExecutor, q: string, table: string, keys: set<string>, rows: seq<Row>, i: nat,
                    acquire: AcquireOutcome, failing: set<nat>, ghost done: seq<Statement>)
    returns (r: Option<LoadOutcome>)
    requires i < |rows| && keys == Keys(rows[0]) && Executed(StateOf(e), acquire, done)
    modifies e
    ensures After(StateOf(e), acquire, failing, done, DeleteSteps(q, table, rows)[i], r)
  {
    var s := BuildDelete(q, table, keys, rows[i]);
    var res := Run(e, acquire, failing, done, s);
    r := if res == Done then None else Some(StatementFailed(e.idx, res));
  }

  method Delete(e: BatchExecutor, q: string, table: string, rows: seq<Row>,
                acquire: AcquireOutcome, failing: set<nat>, ghost done: seq<Statement>)
    returns (r: Option<LoadOutcome>)
    requires rows != [] && Executed(StateOf(e), acquire, done)
    modifies e
    ensures After(StateOf(e), acquire, failing, done, Sequence(DeleteSteps(q, table, rows)), r)
  {
    var keys := Keys(rows[0]);
    ghost var steps := DeleteSteps(q, table, rows);
    ProgressStart(StateOf(e), acquire, failing, done, steps);
    r := None;
    var i := 0;
    while i < |rows| && r.None?
      invariant 0 <= i <= |rows|
      invariant r.None? ==> Progress(StateOf(e), acquire, failing, done, Sequence(steps[..i]))
      invariant r.Some? ==> After(StateOf(e), acquire, failing, done, Sequence(steps), r)
    {
      r := DeleteNext(e, q, table, keys, rows, i, acquire, failing, done);
      i := i + 1;
    }
    if r.None? {
      ProgressIsAfter(StateOf(e), acquire, failing, done, steps, i);
    }
  }

  /** Row i of delete(message), after rows 0..i-1 ran through. */
  method DeleteNext(e: BatchExecutor, q: string, table: string, keys: set<string>, rows: seq<Row>, i: nat,
                    acquire: AcquireOutcome, failing: set<nat>, ghost done: seq<Statement>)
    returns (step: Option<LoadOutcome>)
    requires i < |rows| && keys == Keys(rows[0])
    requires Progress(StateOf(e), acquire, failing, done, Sequence(DeleteSteps(q, table, rows)[..i]))
    modifies e
    ensures step.Some? ==> After(StateOf(e), acquire, failing, done, Sequence(DeleteSteps(q, table, rows)), step)
    ensures step.None? ==> Progress(StateOf(e), acquire, failing, done, Sequence(DeleteSteps(q, table, rows)[..i + 1]))
  {
    ghost var steps := DeleteSteps(q, table, rows);
    ghost var d := done + Sequence(steps[..i]).statements;
    step := DeleteStep(e, q, table, keys, rows, i, acquire, failing, d);
    SequenceStep(StateOf(e), acquire, failing, done, steps, i, step);
  }

  method Truncate(e: BatchExecutor, q: string, table: string,
                  acquire: AcquireOutcome, failing: set<nat>, ghost done: seq<Statement>)
    returns (r: Option<LoadOutcome>)
    requires Executed(StateOf(e), acquire, done)
    modifies e
    ensures After(StateOf(e), acquire, failing, done, TruncatePlan(q, table), r)
  {
    var s := BuildTruncate(q, table);
    var res := Run(e, acquire, failing, done, s);
    r := if res == Done then None else Some(StatementFailed(e.idx, res));
  }

  /** The body of load's loop for one message: the emptiness check and the
      switch on the event type. */
  method LoadMessage(e: BatchExecutor, q: string, m: EtlMessage,
                     acquire: AcquireOutcome, failing: set<nat>, ghost done: seq<Statement>)
    returns (r: Option<LoadOutcome>)
    requires Executed(StateOf(e), acquire, done)
    modifies e
    ensures After(StateOf(e), acquire, failing, done, MessagePlan(q, m), r)
  {
    if m.data.None? {
      return Some(Malformed(NullData));
    }
    var rows := m.data.value;
    if rows == [] {
      return None;
    }
    if m.eventType == "INSERT" {
      r := Insert(e, q, m.table, rows, acquire, failing, done);
    } else if m.eventType == "UPDATE" {
      r := Update(e, q, m.table, rows, m.oldRows, acquire, failing, done);
    } else if m.eventType == "DELETE" {
      r := Delete(e, q, m.table, rows, acquire, failing, done);
    } else if m.eventType == "TRUNCATE" {
      r := Truncate(e, q, m.table, acquire, failing, done);
    } else {
      r := None;
    }
  }

  /** A message that throws ends the cycle with the calls made so far. */
  lemma {:induction false} EarlyExit(st: ExecState, q: string, msgs: seq<EtlMessage>, acquire: AcquireOutcome,
                                     failing: set<nat>, commitFails: bool, rollbackFails: bool, o: LoadOutcome)
    requires After(st, acquire, failing, [], LoadPlan(q, msgs), Some(o))
    ensures Cycle(o, st.calls) == ExpectedLoad(q, msgs, acquire, failing, commitFails, rollbackFails)
    ensures o.StatementFailed? ==> st.idx == o.ordinal
  {
    var p := LoadPlan(q, msgs);
    var j := FirstFailure(acquire, failing, 0, |p.statements|);
    if j < |p.statements| {
      assert Stopped(st, acquire, [] + p.statements[..j], Some(o));
      assert [] + p.statements[..j] == p.statements[..j];
    } else {
      assert Finished(st, acquire, [], p, Some(o));
      assert [] + p.statements == p.statements;
    }
  }

  /** The commit phase after every statement ran: what load's try/catch
      around commit records, stated on the executor state it starts from. */
  function CommitPhase(st: ExecState, acquire: AcquireOutcome, commitFails: bool, rollbackFails: bool): Cycle {
    var attempted := st.calls + CallsOfAcquire(st.conn, st.handedOut, acquire);
    if acquire == GetConnectionFails then Cycle(RollbackFailed, attempted)
    else if !commitFails then Cycle(Loaded, attempted + [Committed(0)])
    else if !rollbackFails then Cycle(CommitRolledBack, attempted + [RolledBack(0)])
    else Cycle(RollbackFailed, attempted)
  }

  lemma {:induction false} CommitAfterPlan(st: ExecState, q: string, msgs: seq<EtlMessage>, acquire: AcquireOutcome,
                                           failing: set<nat>, commitFails: bool, rollbackFails: bool)
    requires Progress(st, acquire, failing, [], LoadPlan(q, msgs))
    ensures CommitPhase(st, acquire, commitFails, rollbackFails)
            == ExpectedLoad(q, msgs, acquire, failing, commitFails, rollbackFails)
  {
    var p := LoadPlan(q, msgs);
    assert [] + p.statements == p.statements;
    assert Executed(st, acquire, p.statements);
    assert st.calls + CallsOfAcquire(st.conn, st.handedOut, acquire) == Prologue(0, acquire) + RunCalls(0, p.statements);
  }

  /** The try/catch around commit: roll back when commit throws, then
      rethrow; a rollback that throws replaces the commit's exception. */
  method CommitOrRollback(e: BatchExecutor, acquire: AcquireOutcome, commitFails: bool, rollbackFails: bool)
    returns (outcome: LoadOutcome)
    requires e.Valid()
    requires e.conn.Some? ==> e.conn == Some(0)
    requires e.conn.None? ==> e.handedOut == 0
    requires acquire == GetConnectionFails ==> e.conn.None?
    modifies e
    ensures Cycle(outcome, e.calls) == CommitPhase(old(StateOf(e)), acquire, commitFails, rollbackFails)
    ensures outcome == Loaded || outcome == CommitRolledBack ==> e.idx == 0
  {
    var c := e.Commit(acquire, commitFails);
    if c == Done {
      return Loaded;
    }
    var rb := e.Rollback(acquire, rollbackFails);
    outcome := if rb == Done then CommitRolledBack else RollbackFailed;
  }

  /** The loop of load over the messages: each message's statements in
      turn, stopping at the first message that throws. */
  method RunMessages(exec: BatchExecutor, q: string, messages: seq<EtlMessage>, acquire: AcquireOutcome,
                     failing: set<nat>)
    returns (stop: Option<LoadOutcome>)
    requires Executed(StateOf(exec), acquire, [])
    modifies exec
    ensures stop.Some? ==> After(StateOf(exec), acquire, failing, [], LoadPlan(q, messages), stop)
    ensures stop.None? ==> Progress(StateOf(exec), acquire, failing, [], LoadPlan(q, messages))
  {
    ghost var steps := MessageSteps(q, messages);
    ProgressStart(StateOf(exec), acquire, failing, [], steps);
    var i := 0;
    while i < |messages|
      invariant 0 <= i <= |messages|
      invariant Progress(StateOf(exec), acquire, failing, [], Sequence(steps[..i]))
    {
      var step := MessageStep(exec, q, messages, i, acquire, failing);
      if step.Some? {
        return step;
      }
      i := i + 1;
    }
    assert steps[..i] == steps;
    stop := None;
  }

  /** Message i of load, after messages 0..i-1 ran through. */
  method MessageStep(exec: BatchExecutor, q: string, messages: seq<EtlMessage>, i: nat, acquire: AcquireOutcome,
                     failing: set<nat>)
    returns (step: Option<LoadOutcome>)
    requires i < |messages|
    requires Progress(StateOf(exec), acquire, failing, [], Sequence(MessageSteps(q, messages)[..i]))
    modifies exec
    ensures step.Some? ==> After(StateOf(exec), acquire, failing, [], LoadPlan(q, messages), step)
    ensures step.None? ==> Progress(StateOf(exec), acquire, failing, [], Sequence(MessageSteps(q, messages)[..i + 1]))
  {
    ghost var steps := MessageSteps(q, messages);
    ghost var d := Sequence(steps[..i]).statements;
    assert [] + d == d;
    step := LoadMessage(exec, q, messages[i], acquire, failing, d);
    SequenceStep(StateOf(exec), acquire, failing, [], steps, i, step);
  }

  /** load(messages) on a Druid data source of type `dbType`: a fresh
      executor, every message in order, one commit; the executor is
      returned so that its recorded calls can be stated. */
  method Load(messages: seq<EtlMessage>, dbType: Option<DbType>, acquire: AcquireOutcome, failing: set<nat>,
              commitFails: bool, rollbackFails: bool)
    returns (outcome: LoadOutcome, exec: BatchExecutor)
    ensures fresh(exec)
    ensures Cycle(outcome, exec.calls)
            == ExpectedLoad(BacktickByDbType(dbType), messages, acquire, failing, commitFails, rollbackFails)
    ensures outcome.StatementFailed? ==> exec.idx == outcome.ordinal
    ensures outcome == Loaded || outcome == CommitRolledBack ==> exec.idx == 0
  {
    var q := BacktickByDbType(dbType);
    exec := new BatchExecutor(OtherDataSource, "");
    var stop := RunMessages(exec, q, messages, acquire, failing);
    if stop.Some? {
      outcome := stop.value;
      EarlyExit(StateOf(exec), q, messages, acquire, failing, commitFails, rollbackFails, outcome);
      return;
    }
    CommitAfterPlan(StateOf(exec), q, messages, acquire, failing, commitFails, rollbackFails);
    outcome := CommitOrRollback(exec, acquire, commitFails, rollbackFails);
  }
}
