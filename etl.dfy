/** Shared data model of the sink: column values, columns, rows and messages
    as the decoder hands them to the load path, and the JDBC type tags. */
module Etl {

  datatype Option<T> = None | Some(value: T)

  /** The boxed number classes a decoded value can be. */
  datatype NumKind = ByteNum | ShortNum | IntegerNum | LongNum | FloatNum | DoubleNum | BigDecimalNum | OtherNum

  /** java.sql.Date, java.sql.Time, java.sql.Timestamp, and a plain java.util.Date. */
  datatype TemporalKind = SqlDate | SqlTime | SqlTimestamp | UtilDate

  /** A loosely typed column value, closed over the shapes the binding code
      inspects. `repr` is the object's toString; `ref` stands for object
      identity where Java compares by reference; `intValue` is what
      Number.intValue() returns. */
  datatype Value =
    | Null
    | Bool(b: bool)
    | Str(s: string)
    | Num(numKind: NumKind, intValue: int, repr: string)
    | Bytes(ref: nat, bytes: seq<bv8>, repr: string)
    | BlobRef(ref: nat, repr: string)
    | ClobRef(ref: nat, repr: string)
    | Temporal(temporalKind: TemporalKind, millis: int, repr: string)
    | Other(repr: string)

  /** String.valueOf(value): what StringBuilder.append(Object) appends. */
  function Text(v: Value): (t: string)
    ensures v.Str? ==> t == v.s
    ensures v.Null? ==> t == "null"
  {
    match v
    case Null => "null"
    case Bool(b) => if b then "true" else "false"
    case Str(s) => s
    case Num(_, _, r) => r
    case Bytes(_, _, r) => r
    case BlobRef(_, r) => r
    case ClobRef(_, r) => r
    case Temporal(_, _, r) => r
    case Other(r) => r
  }

  /** Objects.equals(a, b): arrays and large-object handles compare by
      reference, everything else by value. A date equals any date of the
      same instant (Date.equals), except that a Timestamp equals only a
      Timestamp (Timestamp.equals), so the relation is not symmetric. */
  predicate SameValue(a: Value, b: Value) {
    match a
    case Bytes(r, _, _) => b.Bytes? && b.ref == r
    case BlobRef(r, _) => b.BlobRef? && b.ref == r
    case ClobRef(r, _) => b.ClobRef? && b.ref == r
    case Temporal(k, m, _) => b.Temporal? && b.millis == m && (k == SqlTimestamp ==> b.temporalKind == SqlTimestamp)
    case _ => a == b
  }

  /** Reflexive and transitive; symmetric except for a plain date against
      a Timestamp of the same instant. */
  lemma SameValueLaws(a: Value, b: Value, c: Value)
    ensures SameValue(a, a)
    ensures SameValue(a, b) && SameValue(b, c) ==> SameValue(a, c)
    ensures SameValue(a, b) && !SameValue(b, a) <==>
              a.Temporal? && b.Temporal? && a.millis == b.millis &&
              a.temporalKind != SqlTimestamp && b.temporalKind == SqlTimestamp
    ensures SameValue(Null, b) <==> b.Null?
  {
  }

  /** One decoded column: name, value, key flag and type tags. */
  datatype EtlColumn = EtlColumn(name: string, value: Value, key: bool, sqlType: int, mysqlType: string)

  /** A row is a LinkedHashMap from column name to column: insertion
      ordered, one entry per name. */
  type Row = seq<EtlColumn>

  predicate WellFormedRow(row: Row) {
    forall i, j :: 0 <= i < j < |row| ==> row[i].name != row[j].name
  }

  function Names(row: Row): (ns: seq<string>)
    ensures |ns| == |row|
    ensures forall i :: 0 <= i < |row| ==> ns[i] == row[i].name
  {
    if row == [] then [] else Names(row[..|row| - 1]) + [row[|row| - 1].name]
  }

  /** Map.get(name): the column stored under that name, if any. */
  function Get(row: Row, name: string): (r: Option<EtlColumn>)
    ensures r.None? <==> forall c :: c in row ==> c.name != name
    ensures r.Some? ==> r.value in row && r.value.name == name
  {
    if row == [] then None
    else if row[0].name == name then Some(row[0])
    else Get(row[1..], name)
  }

  predicate HasColumn(row: Row, name: string) {
    Get(row, name).Some?
  }

  /** Map.put(col.name, col) on a LinkedHashMap: a present name keeps its
      position and takes the new column; a new name goes last. */
  function Put(row: Row, col: EtlColumn): (r: Row)
    ensures Get(row, col.name).Some? ==> |r| == |row|
    ensures Get(row, col.name).None? ==> r == row + [col]
    ensures Get(r, col.name) == Some(col)
    ensures forall n :: n != col.name ==> Get(r, n) == Get(row, n)
  {
    if row == [] then [col]
    else if row[0].name == col.name then [col] + row[1..]
    else [row[0]] + Put(row[1..], col)
  }

  lemma {:induction false} PutKeepsWellFormed(row: Row, col: EtlColumn)
    requires WellFormedRow(row)
    ensures WellFormedRow(Put(row, col))
  {
    if row != [] {
      var head := row[0];
      var tail := row[1..];
      TailWellFormed(row);
      if head.name == col.name {
        assert Put(row, col) == [col] + tail;
        ConsWellFormed(col, tail);
      } else {
        PutKeepsWellFormed(tail, col);
        var rest := Put(tail, col);
        assert Get(rest, head.name) == Get(tail, head.name);
        assert Put(row, col) == [head] + rest;
        ConsWellFormed(head, rest);
      }
    }
  }

  lemma TailWellFormed(row: Row)
    requires row != [] && WellFormedRow(row)
    ensures WellFormedRow(row[1..])
    ensures forall c :: c in row[1..] ==> c.name != row[0].name
  {
    var tail := row[1..];
    forall i, j | 0 <= i < j < |tail|
      ensures tail[i].name != tail[j].name
    {
      assert tail[i] == row[i + 1] && tail[j] == row[j + 1];
    }
    forall c | c in tail
      ensures c.name != row[0].name
    {
      var k :| 0 <= k < |tail| && tail[k] == c;
      assert row[k + 1] == c;
    }
  }

  lemma ConsWellFormed(head: EtlColumn, rest: Row)
    requires WellFormedRow(rest)
    requires forall c :: c in rest ==> c.name != head.name
    ensures WellFormedRow([head] + rest)
  {
    var r := [head] + rest;
    forall i, j | 0 <= i < j < |r|
      ensures r[i].name != r[j].name
    {
      assert r[j] == rest[j - 1] && rest[j - 1] in rest;
      if i > 0 {
        assert r[i] == rest[i - 1];
      }
    }
  }

  /** One table-scoped change event: which table, the operation, the key
      column names and the new and old rows. Absent lists are Java nulls. */
  datatype EtlMessage = EtlMessage(
    database: string,
    table: string,
    pkNames: Option<seq<string>>,
    isDdl: bool,
    eventType: string,
    es: int,
    ts: int,
    sql: string,
    data: Option<seq<Row>>,
    oldRows: Option<seq<Row>>)

  // java.sql.Types constants
  const BIT: int := -7
  const TINYINT: int := -6
  const SMALLINT: int := 5
  const INTEGER: int := 4
  const BIGINT: int := -5
  const FLOAT: int := 6
  const REAL: int := 7
  const DOUBLE: int := 8
  const NUMERIC: int := 2
  const DECIMAL: int := 3
  const CHAR: int := 1
  const VARCHAR: int := 12
  const LONGVARCHAR: int := -1
  const NCHAR: int := -15
  const DATE: int := 91
  const TIME: int := 92
  const TIMESTAMP: int := 93
  const BINARY: int := -2
  const VARBINARY: int := -3
  const LONGVARBINARY: int := -4
  const BLOB: int := 2004
  const CLOB: int := 2005
  const BOOLEAN: int := 16
}
