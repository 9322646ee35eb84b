/** What the load path's statements say, written out without the builder's
    append-then-trim steps, and what one load cycle asks of the JDBC layer
    in terms of transaction ends. */
module LoadFacts {
  import opened Etl
  import opened SqlText
  import opened Executor
  import opened Load
  import Convert

  // ---------------------------------------------------------------------
  // Statement text in its finished form

  /** "`name`=?" for each column, in order. */
  function Assignments(q: string, cols: seq<EtlColumn>): (r: seq<string>)
    ensures |r| == |cols|
    ensures forall i :: 0 <= i < |cols| ==> r[i] == Quoted(q, cols[i].name) + "=?"
  {
    seq(|cols|, i requires 0 <= i < |cols| => Quoted(q, cols[i].name) + "=?")
  }

  /** Every column followed by "=?" and the separator is the separator-join
      of the assignments plus one trailing separator. */
  lemma {:induction false} ColumnListIsJoin(q: string, cols: seq<EtlColumn>, sep: string)
    requires cols != []
    ensures ColumnList(q, cols, "=?" + sep) == Join(Assignments(q, cols), sep) + sep
  {
    var n := |cols|;
    var a := Assignments(q, cols);
    var last := Quoted(q, cols[n - 1].name);
    if n == 1 {
      assert cols[..0] == [];
      assert ColumnList(q, cols, "=?" + sep) == "" + last + ("=?" + sep);
      assert Join(a, sep) == last + "=?";
    } else {
      var init := cols[..n - 1];
      ColumnListIsJoin(q, init, sep);
      assert a[..n - 1] == Assignments(q, init);
      assert Join(a, sep) == Join(Assignments(q, init), sep) + sep + (last + "=?");
      assert ColumnList(q, cols, "=?" + sep) == ColumnList(q, init, "=?" + sep) + last + ("=?" + sep);
    }
  }

  /** The SET part once `deleteBehind(2)` dropped the last ", ". */
  lemma {:induction false} SetPart(q: string, table: string, changed: seq<EtlColumn>)
    requires changed != []
    ensures DropLast("UPDATE " + Quoted(q, table) + " SET " + ColumnList(q, changed, "=?, "), 2)
            == "UPDATE " + Quoted(q, table) + " SET " + Join(Assignments(q, changed), ", ")
  {
    var head := "UPDATE " + Quoted(q, table) + " SET ";
    assert "=?" + ", " == "=?, ";
    ColumnListIsJoin(q, changed, ", ");
    var j := Join(Assignments(q, changed), ", ");
    assert head + ColumnList(q, changed, "=?, ") == (head + j) + ", ";
    DeleteUndoesAppend(head + j, ", ");
  }

  /** `text + " WHERE "` plus the key conditions, less the last four
      characters: with keys, each condition joined by " AND " and one space
      left over; without keys, the WHERE itself is cut to " WH". */
  lemma {:induction false} WherePart(q: string, text: string, keyCols: seq<EtlColumn>)
    ensures keyCols != [] ==>
              DropLast(text + " WHERE " + ColumnList(q, keyCols, "=? AND "), 4)
              == text + " WHERE " + Join(Assignments(q, keyCols), " AND ") + " "
    ensures keyCols == [] ==> DropLast(text + " WHERE " + ColumnList(q, keyCols, "=? AND "), 4) == text + " WH"
  {
    if keyCols != [] {
      assert "=?" + " AND " == "=? AND ";
      ColumnListIsJoin(q, keyCols, " AND ");
      var j := Join(Assignments(q, keyCols), " AND ");
      assert text + " WHERE " + ColumnList(q, keyCols, "=? AND ") == (text + " WHERE " + j) + " AND ";
      DropLastOfConcat(text + " WHERE " + j, " AND ", 4);
      assert DropLast(" AND ", 4) == " ";
    } else {
      assert text + " WHERE " + ColumnList(q, keyCols, "=? AND ") == text + " WHERE ";
      DropLastOfConcat(text, " WHERE ", 4);
      assert DropLast(" WHERE ", 4) == " WH";
    }
  }

  /** update(row) with changed columns: one assignment per changed column,
      one condition per key column of the old row, and one bound value per
      placeholder, changed columns first. */
  lemma {:induction false} UpdateText(q: string, table: string, keys: set<string>, data: Row, oldRow: Row)
    requires ChangedColumns(data, oldRow) != []
    ensures var s := UpdateStatement(q, table, keys, data, oldRow);
            var changed := ChangedColumns(data, oldRow);
            var keyCols := KeyColumns(keys, oldRow);
            var set_ := "UPDATE " + Quoted(q, table) + " SET " + Join(Assignments(q, changed), ", ");
            s.Some?
            && (keyCols != [] ==> s.value.sql == set_ + " WHERE " + Join(Assignments(q, keyCols), " AND ") + " ")
            && (keyCols == [] ==> s.value.sql == set_ + " WH")
            && |s.value.values| == |changed| + |keyCols|
            && s.value.values[..|changed|] == BoundOf(changed)
  {
    var changed := ChangedColumns(data, oldRow);
    var keyCols := KeyColumns(keys, oldRow);
    SetPart(q, table, changed);
    WherePart(q, "UPDATE " + Quoted(q, table) + " SET " + Join(Assignments(q, changed), ", "), keyCols);
    assert (BoundOf(changed) + BoundOf(keyCols))[..|changed|] == BoundOf(changed);
  }

  /** delete(row): one condition per key column of the row; a table without
      key columns gets the cut-off " WH" and no values. */
  lemma {:induction false} DeleteText(q: string, table: string, keys: set<string>, data: Row)
    ensures var s := DeleteStatement(q, table, keys, data);
            var keyCols := KeyColumns(keys, data);
            (keyCols != [] ==>
               s.sql == "DELETE FROM " + Quoted(q, table) + " WHERE " + Join(Assignments(q, keyCols), " AND ") + " ")
            && (keyCols == [] ==> s.sql == "DELETE FROM " + Quoted(q, table) + " WH" && s.values == [])
            && |s.values| == |keyCols|
  {
    WherePart(q, "DELETE FROM " + Quoted(q, table), KeyColumns(keys, data));
  }

  /** "(?,?,…)" with one placeholder per column of the row. */
  function Groups(rows: seq<Row>): (r: seq<string>)
    ensures |r| == |rows|
    ensures forall i :: 0 <= i < |rows| ==> r[i] == "(" + Join(Copies("?", |rows[i]|), ",") + ")"
  {
    seq(|rows|, i requires 0 <= i < |rows| => "(" + Join(Copies("?", |rows[i]|), ",") + ")")
  }

  lemma {:induction false} OneGroup(n: nat)
    requires n >= 1
    ensures DropLast("(" + Repeat("?,", n), 1) + ")," == "(" + Join(Copies("?", n), ",") + ")" + ","
  {
    PlaceholderRun(n);
    DropLastOfConcat("(", Repeat("?,", n), 1);
  }

  lemma {:induction false} RowGroupsIsJoin(rows: seq<Row>)
    requires rows != []
    requires forall i :: 0 <= i < |rows| ==> rows[i] != []
    ensures RowGroups(rows) == Join(Groups(rows), ",") + ","
  {
    var n := |rows|;
    var g := Groups(rows);
    var init := rows[..n - 1];
    RowGroupsLast(rows);
    if n == 1 {
      assert init == [];
    } else {
      RowGroupsIsJoin(init);
      GroupsInit(rows);
      assert Join(g, ",") == Join(g[..n - 1], ",") + "," + g[n - 1];
    }
  }

  lemma {:induction false} RowGroupsLast(rows: seq<Row>)
    requires rows != [] && rows[|rows| - 1] != []
    ensures RowGroups(rows) == RowGroups(rows[..|rows| - 1]) + (Groups(rows)[|rows| - 1] + ",")
  {
    OneGroup(|rows[|rows| - 1]|);
  }

  lemma {:induction false} GroupsInit(rows: seq<Row>)
    requires rows != []
    ensures Groups(rows)[..|rows| - 1] == Groups(rows[..|rows| - 1])
  {
  }

  /** Every value of every row, in the first row's column order. */
  lemma {:induction false} InsertValuesCount(columns: seq<string>, rows: seq<Row>)
    requires ColumnsPresent(columns, rows)
    ensures |InsertValues(columns, rows)| == |rows| * |columns|
  {
    if rows != [] {
      var init := rows[..|rows| - 1];
      assert ColumnsPresent(columns, init);
      InsertValuesCount(columns, init);
      assert |rows| * |columns| == |init| * |columns| + |columns|;
    }
  }

  /** insert: the quoted column names of the first row, one placeholder
      group per row sized by that row, and the values of every row in the
      first row's column order. */
  lemma {:induction false} InsertText(q: string, table: string, rows: seq<Row>)
    requires rows != [] && rows[0] != []
    requires ColumnsPresent(Names(rows[0]), rows)
    ensures var s := InsertStatement(q, table, rows);
            var columns := Names(rows[0]);
            s.Some?
            && s.value.sql == "INSERT INTO " + Quoted(q, table) + " (" + Join(QuoteAll(q, columns), ",")
                              + ") VALUES " + Join(Groups(rows), ",")
            && |s.value.values| == |rows| * |columns|
  {
    var columns := Names(rows[0]);
    forall i | 0 <= i < |rows|
      ensures rows[i] != []
    {
      assert HasColumn(rows[i], columns[0]);
    }
    var head := "INSERT INTO " + Quoted(q, table) + " (";
    QuotedEachIsJoinPlusDelimiter(q, ",", columns);
    DropLastOfConcat(head, QuotedEach(q, ",", columns), 1);
    assert InsertHead(q, table, columns) == head + Join(QuoteAll(q, columns), ",") + ") VALUES ";
    RowGroupsIsJoin(rows);
    var body := InsertHead(q, table, columns) + Join(Groups(rows), ",");
    assert InsertHead(q, table, columns) + RowGroups(rows) == body + ",";
    DeleteUndoesAppend(body, ",");
    InsertValuesCount(columns, rows);
  }

  // ---------------------------------------------------------------------
  // Which rows produce statements

  lemma {:induction false} GetOfMember(row: Row, c: EtlColumn)
    requires WellFormedRow(row) && c in row
    ensures Get(row, c.name) == Some(c)
  {
    if row[0] != c {
      assert c in row[1..];
      var k :| 0 <= k < |row[1..]| && row[1..][k] == c;
      assert row[k + 1] == c && row[0].name != c.name;
      assert WellFormedRow(row[1..]) by {
        forall i, j | 0 <= i < j < |row[1..]| ensures row[1..][i].name != row[1..][j].name {
          assert row[1..][i] == row[i + 1] && row[1..][j] == row[j + 1];
        }
      }
      GetOfMember(row[1..], c);
    }
  }

  /** update(row) runs a statement exactly when some column of the new row
      is missing from the old row or differs from it. */
  lemma {:induction false} UpdateRunsIffChanged(q: string, table: string, keys: set<string>, data: Row, oldRow: Row)
    ensures UpdateStatement(q, table, keys, data, oldRow).Some? <==> exists c :: c in data && Changed(c, oldRow)
  {
    var changed := ChangedColumns(data, oldRow);
    if changed != [] {
      assert changed[0] in changed;
    }
  }

  /** A row compared with itself changes nothing, so it runs nothing. */
  lemma {:induction false} SameRowUpdatesNothing(q: string, table: string, keys: set<string>, data: Row)
    requires WellFormedRow(data)
    ensures UpdateStatement(q, table, keys, data, data).None?
  {
    forall c | c in data
      ensures !Changed(c, data)
    {
      GetOfMember(data, c);
      SameValueLaws(c.value, c.value, c.value);
    }
    UpdateRunsIffChanged(q, table, keys, data, data);
  }

  // ---------------------------------------------------------------------
  // What a message plans

  /** Steps that each run one statement and never throw run those
      statements in order. */
  lemma {:induction false} SequenceOfSingles(steps: seq<Plan>, stmts: seq<Statement>)
    requires |steps| == |stmts|
    requires forall i :: 0 <= i < |steps| ==> steps[i] == Plan([stmts[i]], None)
    ensures Sequence(steps) == Plan(stmts, None)
  {
    if steps != [] {
      var n := |steps|;
      SequenceOfSingles(steps[..n - 1], stmts[..n - 1]);
      assert stmts[..n - 1] + [stmts[n - 1]] == stmts;
    }
  }

  /** delete(message): one DELETE per row, keys from the first row. */
  lemma {:induction false} DeleteOnePerRow(q: string, table: string, rows: seq<Row>)
    requires rows != []
    ensures var p := Sequence(DeleteSteps(q, table, rows));
            p.error.None? && |p.statements| == |rows|
            && forall i :: 0 <= i < |rows| ==> p.statements[i] == DeleteStatement(q, table, Keys(rows[0]), rows[i])
  {
    var stmts := seq(|rows|, i requires 0 <= i < |rows| => DeleteStatement(q, table, Keys(rows[0]), rows[i]));
    SequenceOfSingles(DeleteSteps(q, table, rows), stmts);
  }

  /** Steps before the first throwing one never throw. */
  lemma {:induction false} NoErrorYet(steps: seq<Plan>, k: nat)
    requires k <= |steps|
    requires forall i :: 0 <= i < k ==> steps[i].error.None?
    ensures Sequence(steps[..k]).error.None?
  {
    if k > 0 {
      assert steps[..k][..k - 1] == steps[..k - 1];
      NoErrorYet(steps, k - 1);
    }
  }

  /** update(message) with fewer old rows than new rows throws at the first
      row without an old row, after updating the rows before it. */
  lemma {:induction false} UpdateShortOfOldRows(q: string, table: string, rows: seq<Row>, olds: seq<Row>)
    requires |olds| < |rows|
    ensures var p := Sequence(UpdateSteps(q, table, rows, Some(olds)));
            p.error == Some(OldRowMissing)
            && p.statements == Sequence(UpdateSteps(q, table, rows, Some(olds))[..|olds|]).statements
  {
    var steps := UpdateSteps(q, table, rows, Some(olds));
    var k := |olds|;
    forall i | 0 <= i < k
      ensures steps[i].error.None?
    {
      match UpdateStatement(q, table, Keys(rows[0]), rows[i], olds[i])
      case None =>
      case Some(_) =>
    }
    NoErrorYet(steps, k);
    assert steps[..k + 1][..k] == steps[..k];
    assert Sequence(steps[..k + 1]) == Then(Sequence(steps[..k]), steps[k]);
    SequencePrefix(steps, k + 1);
  }

  /** update(message) without old rows throws before any statement. */
  lemma {:induction false} UpdateWithoutOldRows(q: string, table: string, rows: seq<Row>)
    requires rows != []
    ensures Sequence(UpdateSteps(q, table, rows, None)) == Plan([], Some(NullOldRows))
  {
    var steps := UpdateSteps(q, table, rows, None);
    assert steps[..1][..0] == [];
    assert Sequence(steps[..1]) == Plan([], Some(NullOldRows));
    SequencePrefix(steps, 1);
  }

  /** The type is matched exactly: any other string, a lower-case one
      included, plans nothing and throws nothing. */
  lemma {:induction false} OtherTypesPlanNothing(q: string, m: EtlMessage)
    requires m.data.Some?
    requires m.eventType != "INSERT" && m.eventType != "UPDATE"
    requires m.eventType != "DELETE" && m.eventType != "TRUNCATE"
    ensures MessagePlan(q, m) == Plan([], None)
  {
    if m.data.value != [] {
      assert m.eventType != "INSERT";
    }
  }

  /** The decoder sets no data list on a DDL entry (a TRUNCATE among them)
      nor on a row event without rows, so load throws on such a message
      before it runs anything of it. */
  lemma {:induction false} DecodedWithoutRowsStopsLoad(q: string, e: Convert.Entry, rc: Convert.RowChange,
                                                       tc: Convert.TypeConvert, now: int)
    requires rc.isDdl || Convert.RowsFold(rc.eventType, e.tableName, rc.rows, tc).data == []
    ensures MessagePlan(q, Convert.MessageOf(e, rc, tc, now)) == Plan([], Some(NullData))
  {
  }

  // ---------------------------------------------------------------------
  // Transaction ends in one load cycle

  predicate TransactionEnd(c: JdbcCall) {
    c.Committed? || c.RolledBack?
  }

  /** The commits and rollbacks among the recorded calls, in order. */
  function Ends(calls: seq<JdbcCall>): (r: seq<JdbcCall>)
    ensures |r| <= |calls|
    ensures forall c :: c in r ==> c in calls && TransactionEnd(c)
  {
    if calls == [] then []
    else Ends(calls[..|calls| - 1]) + (if TransactionEnd(calls[|calls| - 1]) then [calls[|calls| - 1]] else [])
  }

  lemma {:induction false} EndsOfAppend(a: seq<JdbcCall>, c: JdbcCall)
    ensures Ends(a + [c]) == Ends(a) + (if TransactionEnd(c) then [c] else [])
  {
    assert (a + [c])[..|a|] == a;
  }

  lemma {:induction false} NoEnds(calls: seq<JdbcCall>)
    requires forall k :: 0 <= k < |calls| ==> !TransactionEnd(calls[k])
    ensures Ends(calls) == []
  {
    if calls != [] {
      NoEnds(calls[..|calls| - 1]);
    }
  }

  lemma {:induction false} NoEndsWhileRunning(acquire: AcquireOutcome, stmts: seq<Statement>)
    ensures Ends(Prologue(0, acquire) + RunCalls(0, stmts)) == []
  {
    var calls := Prologue(0, acquire) + RunCalls(0, stmts);
    forall k | 0 <= k < |calls|
      ensures !TransactionEnd(calls[k])
    {
      if k >= |Prologue(0, acquire)| {
        assert calls[k] == RunCalls(0, stmts)[k - |Prologue(0, acquire)|];
      }
    }
    NoEnds(calls);
  }

  /** load commits exactly once, as its last call, when it reports
      success; it rolls back exactly once, as its last call, only after the
      commit threw; a statement that throws or a malformed message leaves
      the transaction neither committed nor rolled back. */
  lemma {:induction false} TransactionEndsOfLoad(q: string, msgs: seq<EtlMessage>, acquire: AcquireOutcome,
                                                 failing: set<nat>, commitFails: bool, rollbackFails: bool)
    ensures var c := ExpectedLoad(q, msgs, acquire, failing, commitFails, rollbackFails);
            Ends(c.calls) == (if c.outcome == Loaded then [Committed(0)]
                              else if c.outcome == CommitRolledBack then [RolledBack(0)]
                              else [])
            && (c.outcome == Loaded || c.outcome == CommitRolledBack ==> c.calls[|c.calls| - 1] == Ends(c.calls)[0])
  {
    var p := LoadPlan(q, msgs);
    var n := |p.statements|;
    var j := FirstFailure(acquire, failing, 0, n);
    var c := ExpectedLoad(q, msgs, acquire, failing, commitFails, rollbackFails);
    var attempted := Prologue(0, acquire) + RunCalls(0, p.statements);
    if j < n {
      NoEndsWhileRunning(acquire, p.statements[..j]);
    } else if p.error.Some? {
      if p.statements == [] {
        assert c.calls == [];
      } else {
        NoEndsWhileRunning(acquire, p.statements);
      }
    } else {
      NoEndsWhileRunning(acquire, p.statements);
      EndsOfAppend(attempted, Committed(0));
      EndsOfAppend(attempted, RolledBack(0));
    }
  }

  /** Without a connection nothing is recorded and nothing is loaded. */
  lemma {:induction false} NoConnectionLoadsNothing(q: string, msgs: seq<EtlMessage>, failing: set<nat>,
                                                    commitFails: bool, rollbackFails: bool)
    ensures var c := ExpectedLoad(q, msgs, GetConnectionFails, failing, commitFails, rollbackFails);
            c.calls == [] && c.outcome != Loaded
            && (LoadPlan(q, msgs).statements != [] ==> c.outcome == StatementFailed(0, NoConnection))
  {
    var p := LoadPlan(q, msgs);
    assert p.statements[..0] == [];
    if p.statements != [] {
      assert FirstFailure(GetConnectionFails, failing, 0, |p.statements|) == 0;
    }
  }

  /** An empty batch still opens a connection, just to commit it. */
  lemma {:induction false} EmptyBatchCommits(q: string, failing: set<nat>)
    ensures ExpectedLoad(q, [], Acquired, failing, false, false)
            == Cycle(Loaded, [Opened(0), AutoCommitOff(0), Committed(0)])
  {
    assert LoadPlan(q, []) == Plan([], None);
  }
}
