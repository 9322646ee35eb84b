/** The decoder: a fetched batch of binlog entries becomes one message per
    non-transaction entry, with the new rows, the old rows of an update
    and the key column names of the first row. */
module Convert {
  import opened Etl

  datatype EntryType = TransactionBegin | RowDataEntry | TransactionEnd | Heartbeat | GtidLog

  datatype EventType =
    | Insert | Update | Delete | Create | Alter | Erase | Query | Truncate | Rename
    | CIndex | DIndex | Gtid | XaCommit | XaRollback | MHeartbeat

  /** EventType.toString(). */
  function EventName(e: EventType): string {
    match e
    case Insert => "INSERT"
    case Update => "UPDATE"
    case Delete => "DELETE"
    case Create => "CREATE"
    case Alter => "ALTER"
    case Erase => "ERASE"
    case Query => "QUERY"
    case Truncate => "TRUNCATE"
    case Rename => "RENAME"
    case CIndex => "CINDEX"
    case DIndex => "DINDEX"
    case Gtid => "GTID"
    case XaCommit => "XACOMMIT"
    case XaRollback => "XAROLLBACK"
    case MHeartbeat => "MHEARTBEAT"
  }

  /** A column as the binlog carries it: its raw text, and whether it is a
      key, null, or flagged as changed by this row. */
  datatype CanalColumn = CanalColumn(name: string, isKey: bool, isNull: bool, updated: bool,
                                     sqlType: int, mysqlType: string, value: string)

  datatype RowData = RowData(before: seq<CanalColumn>, after: seq<CanalColumn>)

  datatype RowChange = RowChange(eventType: EventType, isDdl: bool, sql: string, rows: seq<RowData>)

  /** `change` is None where the stored bytes do not parse as a RowChange. */
  datatype Entry = Entry(entryType: EntryType, schemaName: string, tableName: string, executeTime: int,
                         change: Option<RowChange>)

  /** JdbcTypeUtil.typeConvert(table, column, text, sqlType, mysqlType). */
  type TypeConvert = (string, string, string, int, string) -> Value

  /** convert's result: null for a null message, the messages, or the
      RuntimeException raised for the entry whose bytes do not parse. */
  datatype Converted = NullList | Messages(msgs: seq<EtlMessage>) | ParseFailed(entry: nat)

  predicate IsTransaction(e: Entry) {
    e.entryType == TransactionBegin || e.entryType == TransactionEnd
  }

  predicate IsRowEvent(ev: EventType) {
    ev == Insert || ev == Update || ev == Delete
  }

  // ---------------------------------------------------------------------
  // Specification

  /** covertToEtlColumn: a null column keeps the null value; any other is
      converted from its text. */
  function ToColumn(table: string, c: CanalColumn, tc: TypeConvert): (r: EtlColumn)
    ensures r.name == c.name && r.key == c.isKey && r.sqlType == c.sqlType && r.mysqlType == c.mysqlType
    ensures c.isNull ==> r.value == Null
  {
    if c.isNull then EtlColumn(c.name, Null, c.isKey, c.sqlType, c.mysqlType)
    else EtlColumn(c.name, tc(table, c.name, c.value, c.sqlType, c.mysqlType), c.isKey, c.sqlType, c.mysqlType)
  }

  /** The LinkedHashMap built by putting each column in turn. */
  function RowOf(table: string, cols: seq<CanalColumn>, tc: TypeConvert): Row {
    if cols == [] then []
    else Put(RowOf(table, cols[..|cols| - 1], tc), ToColumn(table, cols[|cols| - 1], tc))
  }

  function KeyNames(cols: seq<CanalColumn>): seq<string> {
    if cols == [] then []
    else KeyNames(cols[..|cols| - 1]) + (if cols[|cols| - 1].isKey then [cols[|cols| - 1].name] else [])
  }

  function UpdatedNames(cols: seq<CanalColumn>): set<string> {
    if cols == [] then {}
    else UpdatedNames(cols[..|cols| - 1]) + (if cols[|cols| - 1].updated then {cols[|cols| - 1].name} else {})
  }

  /** The before-columns whose names are in `names`, in order. */
  function Selected(cols: seq<CanalColumn>, names: set<string>): seq<CanalColumn> {
    if cols == [] then []
    else Selected(cols[..|cols| - 1], names) + (if cols[|cols| - 1].name in names then [cols[|cols| - 1]] else [])
  }

  /** DELETE rows are read from the before image, the others from the after image. */
  function Columns(ev: EventType, rd: RowData): seq<CanalColumn> {
    if ev == Delete then rd.before else rd.after
  }

  /** The row loop's variables: rows processed, key names, new rows, old
      rows and the names flagged as updated so far in this entry. */
  datatype RowsAcc = RowsAcc(processed: nat, pkNames: seq<string>, data: seq<Row>, oldRows: seq<Row>, updated: set<string>)

  function RowStep(acc: RowsAcc, ev: EventType, table: string, rd: RowData, tc: TypeConvert): RowsAcc {
    if !IsRowEvent(ev) then acc
    else
      var cols := Columns(ev, rd);
      var row := RowOf(table, cols, tc);
      var updated := acc.updated + UpdatedNames(cols);
      var oldRow := if ev == Update then RowOf(table, Selected(rd.before, updated), tc) else [];
      RowsAcc(acc.processed + 1,
              acc.pkNames + (if acc.processed == 0 then KeyNames(cols) else []),
              acc.data + (if row != [] then [row] else []),
              acc.oldRows + (if oldRow != [] then [oldRow] else []),
              updated)
  }

  function RowsFold(ev: EventType, table: string, rows: seq<RowData>, tc: TypeConvert): RowsAcc {
    if rows == [] then RowsAcc(0, [], [], [], {})
    else RowStep(RowsFold(ev, table, rows[..|rows| - 1], tc), ev, table, rows[|rows| - 1], tc)
  }

  /** The message for one entry; a DDL entry gets no key names and no rows,
      and the lists are set only when non-empty. */
  function MessageOf(e: Entry, rc: RowChange, tc: TypeConvert, now: int): (m: EtlMessage)
    ensures m.table == e.tableName && m.database == e.schemaName && m.isDdl == rc.isDdl
    ensures m.eventType == EventName(rc.eventType)
    ensures rc.isDdl ==> m.pkNames.None? && m.data.None? && m.oldRows.None?
    ensures m.data.Some? ==> m.data.value != []
    ensures m.oldRows.Some? ==> m.oldRows.value != []
  {
    var acc := RowsFold(rc.eventType, e.tableName, rc.rows, tc);
    EtlMessage(e.schemaName, e.tableName,
               if rc.isDdl then None else Some(acc.pkNames),
               rc.isDdl, EventName(rc.eventType), e.executeTime, now, rc.sql,
               if !rc.isDdl && acc.data != [] then Some(acc.data) else None,
               if !rc.isDdl && acc.oldRows != [] then Some(acc.oldRows) else None)
  }

  function ConvertEntries(entries: seq<Entry>, tc: TypeConvert, now: int): Converted {
    if entries == [] then Messages([])
    else
      var prev := ConvertEntries(entries[..|entries| - 1], tc, now);
      var e := entries[|entries| - 1];
      if !prev.Messages? || IsTransaction(e) then prev
      else if e.change.None? then ParseFailed(|entries| - 1)
      else Messages(prev.msgs + [MessageOf(e, e.change.value, tc, now)])
  }

  function ConvertSpec(message: Option<seq<Entry>>, tc: TypeConvert, now: int): Converted {
    if message.None? then NullList else ConvertEntries(message.value, tc, now)
  }

  function NonTransaction(entries: seq<Entry>): (r: seq<Entry>)
    ensures forall e :: e in r <==> e in entries && !IsTransaction(e)
  {
    if entries == [] then []
    else
      NonTransaction(entries[..|entries| - 1])
      + (if IsTransaction(entries[|entries| - 1]) then [] else [entries[|entries| - 1]])
  }

  // ---------------------------------------------------------------------
  // The loops

  /** convert: `now` stands for System.currentTimeMillis(). */
  method ConvertMessage(message: Option<seq<Entry>>, tc: TypeConvert, now: int) returns (r: Converted)
    ensures r == ConvertSpec(message, tc, now)
  {
    if message.None? {
      return NullList;
    }
    var entries := message.value;
    var msgs: seq<EtlMessage> := [];
    var k := 0;
    while k < |entries|
      invariant 0 <= k <= |entries|
      invariant ConvertEntries(entries[..k], tc, now) == Messages(msgs)
    {
      assert entries[..k + 1][..k] == entries[..k];
      var entry := entries[k];
      if !IsTransaction(entry) {
        if entry.change.None? {
          EarlierFailureStays(entries, k + 1, tc, now);
          return ParseFailed(k);
        }
        var msg := ConvertEntry(entry, entry.change.value, tc, now);
        msgs := msgs + [msg];
      }
      k := k + 1;
    }
    assert entries[..k] == entries;
    r := Messages(msgs);
  }

  /** A parse failure is final: the entries after it are never looked at. */
  lemma {:induction false} EarlierFailureStays(entries: seq<Entry>, k: nat, tc: TypeConvert, now: int)
    requires 0 < k <= |entries|
    requires ConvertEntries(entries[..k], tc, now).ParseFailed?
    ensures ConvertEntries(entries, tc, now) == ConvertEntries(entries[..k], tc, now)
    decreases |entries|
  {
    if k < |entries| {
      var init := entries[..|entries| - 1];
      assert init[..k] == entries[..k];
      EarlierFailureStays(init, k, tc, now);
    } else {
      assert entries[..k] == entries;
    }
  }

  method ConvertEntry(e: Entry, rc: RowChange, tc: TypeConvert, now: int) returns (m: EtlMessage)
    ensures m == MessageOf(e, rc, tc, now)
  {
    var pkNames: Option<seq<string>> := None;
    var data: Option<seq<Row>> := None;
    var oldRows: Option<seq<Row>> := None;
    if !rc.isDdl {
      var acc := ConvertRows(rc.eventType, e.tableName, rc.rows, tc);
      pkNames := Some(acc.pkNames);
      if acc.data != [] {
        data := Some(acc.data);
      }
      if acc.oldRows != [] {
        oldRows := Some(acc.oldRows);
      }
    }
    m := EtlMessage(e.schemaName, e.tableName, pkNames, rc.isDdl, EventName(rc.eventType), e.executeTime, now,
                    rc.sql, data, oldRows);
  }

  /** The row loop: `i` counts the rows of a row event only. */
  method ConvertRows(ev: EventType, table: string, rows: seq<RowData>, tc: TypeConvert) returns (acc: RowsAcc)
    ensures acc == RowsFold(ev, table, rows, tc)
  {
    acc := RowsAcc(0, [], [], [], {});
    var k := 0;
    while k < |rows|
      invariant 0 <= k <= |rows|
      invariant acc == RowsFold(ev, table, rows[..k], tc)
    {
      assert rows[..k + 1][..k] == rows[..k];
      if IsRowEvent(ev) {
        acc := ProcessRow(acc, ev, table, rows[k], tc);
      }
      k := k + 1;
    }
    assert rows[..k] == rows;
  }

  /** The body of the row loop for a row event. */
  method ProcessRow(acc: RowsAcc, ev: EventType, table: string, rd: RowData, tc: TypeConvert) returns (next: RowsAcc)
    requires IsRowEvent(ev)
    ensures next == RowStep(acc, ev, table, rd, tc)
  {
    var row, keys, flagged := PutColumns(table, Columns(ev, rd), tc);
    var updateSet := acc.updated + flagged;
    var rowOld: Row := [];
    if ev == Update {
      rowOld := PutSelected(table, rd.before, updateSet, tc);
    }
    next := RowsAcc(acc.processed + 1,
                    acc.pkNames + (if acc.processed == 0 then keys else []),
                    acc.data + (if row != [] then [row] else []),
                    acc.oldRows + (if rowOld != [] then [rowOld] else []),
                    updateSet);
  }

  /** The column loop of one row: put each column, collect the key names
      and the names flagged as updated. */
  method PutColumns(table: string, cols: seq<CanalColumn>, tc: TypeConvert)
    returns (row: Row, keys: seq<string>, flagged: set<string>)
    ensures row == RowOf(table, cols, tc) && keys == KeyNames(cols) && flagged == UpdatedNames(cols)
  {
    row, keys, flagged := [], [], {};
    var j := 0;
    while j < |cols|
      invariant 0 <= j <= |cols|
      invariant row == RowOf(table, cols[..j], tc) && keys == KeyNames(cols[..j]) && flagged == UpdatedNames(cols[..j])
    {
      assert cols[..j + 1][..j] == cols[..j];
      var column := cols[j];
      if column.isKey {
        keys := keys + [column.name];
      }
      row := Put(row, ToColumn(table, column, tc));
      if column.updated {
        flagged := flagged + {column.name};
      }
      j := j + 1;
    }
    assert cols[..j] == cols;
  }

  /** The old row of an update: the before-columns named in `updateSet`. */
  method PutSelected(table: string, before: seq<CanalColumn>, updateSet: set<string>, tc: TypeConvert)
    returns (rowOld: Row)
    ensures rowOld == RowOf(table, Selected(before, updateSet), tc)
  {
    rowOld := [];
    ghost var picked: seq<CanalColumn> := [];
    var j := 0;
    while j < |before|
      invariant 0 <= j <= |before|
      invariant picked == Selected(before[..j], updateSet)
      invariant rowOld == RowOf(table, picked, tc)
    {
      var column := before[j];
      SelectedStep(before, updateSet, j);
      if column.name in updateSet {
        RowOfSnoc(table, picked, column, tc);
        rowOld := Put(rowOld, ToColumn(table, column, tc));
        picked := picked + [column];
      } else {
        assert picked + [] == picked;
      }
      j := j + 1;
    }
    assert before[..j] == before;
  }

  lemma {:induction false} SelectedStep(cols: seq<CanalColumn>, names: set<string>, j: nat)
    requires j < |cols|
    ensures Selected(cols[..j + 1], names)
            == Selected(cols[..j], names) + (if cols[j].name in names then [cols[j]] else [])
  {
    assert cols[..j + 1][..j] == cols[..j];
  }

  lemma {:induction false} RowOfSnoc(table: string, cols: seq<CanalColumn>, c: CanalColumn, tc: TypeConvert)
    ensures RowOf(table, cols + [c], tc) == Put(RowOf(table, cols, tc), ToColumn(table, c, tc))
  {
    assert (cols + [c])[..|cols|] == cols;
  }

  // ---------------------------------------------------------------------
  // Properties

  /** One message per entry that is not a transaction marker, in entry
      order, each naming its entry's schema and table. */
  lemma {:induction false} MessagesFollowEntries(entries: seq<Entry>, tc: TypeConvert, now: int)
    ensures var r := ConvertEntries(entries, tc, now);
            !r.NullList?
            && (r.Messages? ==>
                  |r.msgs| == |NonTransaction(entries)|
                  && forall k :: 0 <= k < |r.msgs| ==>
                       r.msgs[k].table == NonTransaction(entries)[k].tableName
                       && r.msgs[k].database == NonTransaction(entries)[k].schemaName)
  {
    if entries != [] {
      MessagesFollowEntries(entries[..|entries| - 1], tc, now);
    }
  }

  /** Every entry before `upto` is a transaction marker or parses. */
  predicate ParsedUpTo(entries: seq<Entry>, upto: nat)
    requires upto <= |entries|
  {
    forall k :: 0 <= k < upto ==> IsTransaction(entries[k]) || entries[k].change.Some?
  }

  /** convert throws exactly when some entry that is not a transaction
      marker does not parse, and names the first such entry. */
  lemma {:induction false} ParseFailureIsFirst(entries: seq<Entry>, tc: TypeConvert, now: int)
    ensures var r := ConvertEntries(entries, tc, now);
            (r.ParseFailed? <==> !ParsedUpTo(entries, |entries|))
            && (r.ParseFailed? ==>
                  r.entry < |entries| && !IsTransaction(entries[r.entry]) && entries[r.entry].change.None?
                  && ParsedUpTo(entries, r.entry))
  {
    if entries != [] {
      var init := entries[..|entries| - 1];
      ParseFailureIsFirst(init, tc, now);
      MessagesFollowEntries(init, tc, now);
      ParsedPrefix(entries, |init|);
      if ConvertEntries(init, tc, now).ParseFailed? {
        ParsedPrefix(entries, ConvertEntries(init, tc, now).entry);
      }
    }
  }

  /** Whether the entries before `j` parse does not depend on the entries
      after them. */
  lemma {:induction false} ParsedPrefix(entries: seq<Entry>, j: nat)
    requires j < |entries|
    ensures ParsedUpTo(entries[..|entries| - 1], j) == ParsedUpTo(entries, j)
    ensures j == |entries| - 1 ==>
              (ParsedUpTo(entries, j + 1) <==> ParsedUpTo(entries, j) && (IsTransaction(entries[j]) || entries[j].change.Some?))
  {
    var init := entries[..|entries| - 1];
    assert forall k :: 0 <= k < j ==> init[k] == entries[k];
  }

  /** Events other than INSERT, UPDATE and DELETE produce no rows and no
      key names, and do not advance the row counter; only an UPDATE
      produces old rows. */
  lemma {:induction false} RowsOnlyForRowEvents(ev: EventType, table: string, rows: seq<RowData>, tc: TypeConvert)
    ensures var acc := RowsFold(ev, table, rows, tc);
            (!IsRowEvent(ev) ==> acc == RowsAcc(0, [], [], [], {}))
            && (IsRowEvent(ev) ==> acc.processed == |rows|)
            && (ev != Update ==> acc.oldRows == [])
  {
    if rows != [] {
      RowsOnlyForRowEvents(ev, table, rows[..|rows| - 1], tc);
    }
  }

  /** The key names are those of the first row, in column order. */
  lemma {:induction false} KeysOfFirstRow(ev: EventType, table: string, rows: seq<RowData>, tc: TypeConvert)
    requires IsRowEvent(ev) && rows != []
    ensures RowsFold(ev, table, rows, tc).pkNames == KeyNames(Columns(ev, rows[0]))
  {
    var n := |rows|;
    var init := rows[..n - 1];
    if n == 1 {
      assert init == [];
    } else {
      KeysOfFirstRow(ev, table, init, tc);
      RowsOnlyForRowEvents(ev, table, init, tc);
      assert init[0] == rows[0];
    }
  }

  /** Every old row holds only columns flagged as updated in this row or an
      earlier row of the same entry. */
  predicate OldRowsUpdated(acc: RowsAcc) {
    forall k, c :: 0 <= k < |acc.oldRows| && c in acc.oldRows[k] ==> c.name in acc.updated
  }

  lemma {:induction false} OldRowsHoldUpdatedColumns(ev: EventType, table: string, rows: seq<RowData>, tc: TypeConvert)
    ensures OldRowsUpdated(RowsFold(ev, table, rows, tc))
  {
    if rows != [] {
      var init := rows[..|rows| - 1];
      OldRowsHoldUpdatedColumns(ev, table, init, tc);
      OldRowsStep(RowsFold(ev, table, init, tc), ev, table, rows[|rows| - 1], tc);
    }
  }

  lemma {:induction false} OldRowsStep(acc: RowsAcc, ev: EventType, table: string, rd: RowData, tc: TypeConvert)
    requires OldRowsUpdated(acc)
    ensures OldRowsUpdated(RowStep(acc, ev, table, rd, tc))
  {
    if IsRowEvent(ev) {
      var next := RowStep(acc, ev, table, rd, tc);
      var sel := Selected(rd.before, next.updated);
      var oldRow := if ev == Update then RowOf(table, sel, tc) else [];
      assert next.oldRows == acc.oldRows + (if oldRow != [] then [oldRow] else []);
      assert acc.updated <= next.updated;
      RowOfNames(table, sel, tc);
      SelectedNames(rd.before, next.updated);
      forall k, c | 0 <= k < |next.oldRows| && c in next.oldRows[k]
        ensures c.name in next.updated
      {
        if k < |acc.oldRows| {
          assert next.oldRows[k] == acc.oldRows[k];
        } else {
          assert next.oldRows[k] == oldRow;
        }
      }
    }
  }

  /** The old row one UPDATE row contributes holds exactly its before-columns
      whose names were flagged in this row or an earlier row of the entry
      (never a later one), and it is left out when there is no such column. */
  lemma {:induction false} OldRowOfUpdate(acc: RowsAcc, table: string, rd: RowData, tc: TypeConvert)
    ensures var next := RowStep(acc, Update, table, rd, tc);
            var flagged := acc.updated + UpdatedNames(rd.after);
            var oldRow := RowOf(table, Selected(rd.before, flagged), tc);
            next.updated == flagged &&
            next.oldRows == acc.oldRows + (if ColumnNames(rd.before) * flagged == {} then [] else [oldRow]) &&
            forall n :: HasColumn(oldRow, n) <==> n in flagged && n in ColumnNames(rd.before)
  {
    var flagged := acc.updated + UpdatedNames(rd.after);
    var sel := Selected(rd.before, flagged);
    var oldRow := RowOf(table, sel, tc);
    SelectedNames(rd.before, flagged);
    RowOfNames(table, sel, tc);
    if oldRow != [] {
      assert HasColumn(oldRow, oldRow[0].name);
    }
  }

  /** Old rows do not line up with new rows: an UPDATE entry whose first
      row flags nothing and whose second row flags its one column decodes
      into two new rows but a single old row, taken from the second row. */
  lemma OldRowsCanFallShort(tc: TypeConvert)
    ensures var v := CanalColumn("v", false, false, false, 12, "varchar", "a");
            var rows := [RowData([v], [v]), RowData([v], [v.(updated := true)])];
            var acc := RowsFold(Update, "t", rows, tc);
            |acc.data| == 2 && acc.oldRows == [RowOf("t", rows[1].before, tc)]
  {
    var v := CanalColumn("v", false, false, false, 12, "varchar", "a");
    var r0 := RowData([v], [v]);
    var r1 := RowData([v], [v.(updated := true)]);
    var rows := [r0, r1];
    var start := RowsAcc(0, [], [], [], {});
    assert [v][..0] == [] && [r0][..0] == [] && rows[..1] == [r0];
    var row := RowOf("t", [v], tc);
    assert HasColumn(row, "v");
    assert UpdatedNames([v]) == {};
    assert Selected([v], {}) == [];
    var first := RowStep(start, Update, "t", r0, tc);
    assert first == RowsAcc(1, KeyNames([v]), [row], [], {});
    assert RowsFold(Update, "t", [r0], tc) == first;
    assert UpdatedNames([v.(updated := true)]) == {"v"};
    assert Selected([v], {"v"}) == [v];
    assert RowsFold(Update, "t", rows, tc) == RowStep(first, Update, "t", r1, tc);
  }

  /** No list holds an empty row, and there are never more new or old rows
      than rows processed. */
  predicate RowsNonEmpty(acc: RowsAcc) {
    (forall k :: 0 <= k < |acc.oldRows| ==> acc.oldRows[k] != [])
    && (forall k :: 0 <= k < |acc.data| ==> acc.data[k] != [])
    && |acc.data| <= acc.processed && |acc.oldRows| <= acc.processed
  }

  lemma {:induction false} RowsNeverEmpty(ev: EventType, table: string, rows: seq<RowData>, tc: TypeConvert)
    ensures RowsNonEmpty(RowsFold(ev, table, rows, tc))
  {
    if rows != [] {
      var init := rows[..|rows| - 1];
      RowsNeverEmpty(ev, table, init, tc);
      RowsNonEmptyStep(RowsFold(ev, table, init, tc), ev, table, rows[|rows| - 1], tc);
    }
  }

  lemma {:induction false} RowsNonEmptyStep(acc: RowsAcc, ev: EventType, table: string, rd: RowData, tc: TypeConvert)
    requires RowsNonEmpty(acc)
    ensures RowsNonEmpty(RowStep(acc, ev, table, rd, tc))
  {
    if IsRowEvent(ev) {
      var next := RowStep(acc, ev, table, rd, tc);
      var row := RowOf(table, Columns(ev, rd), tc);
      var oldRow := if ev == Update then RowOf(table, Selected(rd.before, next.updated), tc) else [];
      assert next.data == acc.data + (if row != [] then [row] else []);
      assert next.oldRows == acc.oldRows + (if oldRow != [] then [oldRow] else []);
    }
  }

  /** Selecting by name keeps exactly the columns whose name is listed. */
  lemma {:induction false} SelectedNames(cols: seq<CanalColumn>, names: set<string>)
    ensures ColumnNames(Selected(cols, names)) == ColumnNames(cols) * names
  {
    if cols != [] {
      var init := cols[..|cols| - 1];
      var last := cols[|cols| - 1];
      SelectedNames(init, names);
      if last.name in names {
        ColumnNamesSnoc(Selected(init, names), last);
      } else {
        assert Selected(cols, names) == Selected(init, names);
      }
    }
  }

  lemma {:induction false} ColumnNamesSnoc(cols: seq<CanalColumn>, c: CanalColumn)
    ensures ColumnNames(cols + [c]) == ColumnNames(cols) + {c.name}
  {
    assert (cols + [c])[..|cols|] == cols;
  }

  /** The names of a sequence of binlog columns. */
  function ColumnNames(cols: seq<CanalColumn>): set<string> {
    if cols == [] then {} else ColumnNames(cols[..|cols| - 1]) + {cols[|cols| - 1].name}
  }

  lemma {:induction false} ColumnNamesAreNames(cols: seq<CanalColumn>)
    ensures forall n :: n in ColumnNames(cols) <==> exists c :: c in cols && c.name == n
  {
    if cols != [] {
      var init := cols[..|cols| - 1];
      var last := cols[|cols| - 1];
      ColumnNamesAreNames(init);
      assert cols == init + [last];
      forall n | exists c :: c in cols && c.name == n
        ensures n in ColumnNames(cols)
      {
        var c :| c in cols && c.name == n;
        if c != last {
          assert c in init;
        }
      }
    }
  }

  /** A decoded row has one entry per column name. */
  /** covertToEtlColumn seen through the row it fills: looking a name up
      in a decoded row gives the last binlog column of that name, keyed and
      typed as in the binlog, null if the binlog says null and otherwise
      the converter's value for its text. */
  lemma {:induction false} RowOfLookup(table: string, cols: seq<CanalColumn>, tc: TypeConvert, k: nat)
    requires k < |cols|
    requires forall j :: k < j < |cols| ==> cols[j].name != cols[k].name
    ensures var c := cols[k];
            var got := Get(RowOf(table, cols, tc), c.name);
            got.Some? && got.value.name == c.name && got.value.key == c.isKey &&
            got.value.sqlType == c.sqlType && got.value.mysqlType == c.mysqlType &&
            got.value.value == (if c.isNull then Null else tc(table, c.name, c.value, c.sqlType, c.mysqlType))
  {
    var init := cols[..|cols| - 1];
    if k < |cols| - 1 {
      RowOfLookup(table, init, tc, k);
    }
  }

  lemma {:induction false} RowOfWellFormed(table: string, cols: seq<CanalColumn>, tc: TypeConvert)
    ensures WellFormedRow(RowOf(table, cols, tc))
  {
    if cols != [] {
      var init := cols[..|cols| - 1];
      RowOfWellFormed(table, init, tc);
      PutKeepsWellFormed(RowOf(table, init, tc), ToColumn(table, cols[|cols| - 1], tc));
    }
  }

  /** A decoded row holds exactly the names of the columns it was built
      from. */
  lemma {:induction false} RowOfNames(table: string, cols: seq<CanalColumn>, tc: TypeConvert)
    ensures forall n :: HasColumn(RowOf(table, cols, tc), n) <==> n in ColumnNames(cols)
    ensures forall e :: e in RowOf(table, cols, tc) ==> e.name in ColumnNames(cols)
  {
    if cols != [] {
      var init := cols[..|cols| - 1];
      var last := ToColumn(table, cols[|cols| - 1], tc);
      RowOfNames(table, init, tc);
      PutNames(RowOf(table, init, tc), last, ColumnNames(init));
    }
  }

  /** Putting a column adds its name to the names a row holds. */
  lemma {:induction false} PutNames(row: Row, col: EtlColumn, names: set<string>)
    requires forall n :: HasColumn(row, n) <==> n in names
    ensures forall n :: HasColumn(Put(row, col), n) <==> n in names + {col.name}
    ensures forall e :: e in Put(row, col) ==> e.name in names + {col.name}
  {
    var r := Put(row, col);
    forall n
      ensures HasColumn(r, n) <==> n in names + {col.name}
    {
      if n != col.name {
        assert Get(r, n) == Get(row, n);
      }
    }
    forall e | e in r
      ensures e.name in names + {col.name}
    {
      assert HasColumn(r, e.name);
    }
  }
}
