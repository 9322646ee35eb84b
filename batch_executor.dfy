/** The batch executor: one lazily acquired connection with autocommit off,
    a statement counter reset by commit and rollback, and an idempotent
    close. The JDBC layer is a recorder: `calls` lists what it was asked
    to do and carried out; whether a JDBC call fails is an argument. */
module Executor {
  import opened Etl
  import opened SyncUtil

  /** One {type, value} entry of the list handed to execute. */
  datatype BoundValue = BoundValue(sqlType: int, value: Value)

  /** Parameter `position` (counted from 1) bound with `action`. */
  datatype Binding = Binding(position: int, action: BindAction)

  /** A JDBC call that completed, on connection number `conn`. */
  datatype JdbcCall =
    | Opened(conn: nat)                                    // dataSource.getConnection()
    | AutoCommitOff(conn: nat)                             // setAutoCommit(false)
    | Ran(conn: nat, sql: string, bindings: seq<Binding>)  // prepare, bind every parameter, execute
    | Committed(conn: nat)
    | RolledBack(conn: nat)
    | Closed(conn: nat)

  /** How the data source answers a request for a connection: it hands one
      out, getConnection throws, or setAutoCommit(false) throws after the
      connection was handed out. */
  datatype AcquireOutcome = Acquired | GetConnectionFails | AutoCommitFails

  /** A JDBC call on the connection: done, attempted on a null connection
      (a NullPointerException), or failed with an SQLException. */
  datatype CallOutcome = Done | NoConnection | SqlError

  datatype DataSourceKind = Hikari | OtherDataSource

  /** What execute binds: entry i at parameter i + 1, through setPStmt. */
  function Bindings(values: seq<BoundValue>): (bs: seq<Binding>)
    ensures |bs| == |values|
    ensures forall i :: 0 <= i < |values| ==>
              bs[i].position == i + 1 && bs[i].action == BindActionFor(values[i].sqlType, values[i].value)
  {
    seq(|values|, i requires 0 <= i < |values| => Binding(i + 1, BindActionFor(values[i].sqlType, values[i].value)))
  }

  /** The calls an acquisition records when no connection is held. */
  function Prologue(id: nat, acquire: AcquireOutcome): seq<JdbcCall> {
    match acquire
    case Acquired => [Opened(id), AutoCommitOff(id)]
    case AutoCommitFails => [Opened(id)]
    case GetConnectionFails => []
  }

  /** The connection held after getConn. */
  function ConnAfter(conn: Option<nat>, handedOut: nat, acquire: AcquireOutcome): Option<nat> {
    if conn.Some? then conn
    else if acquire == GetConnectionFails then None
    else Some(handedOut)
  }

  function HandedOutAfter(conn: Option<nat>, handedOut: nat, acquire: AcquireOutcome): nat {
    if conn.None? && acquire != GetConnectionFails then handedOut + 1 else handedOut
  }

  function CallsOfAcquire(conn: Option<nat>, handedOut: nat, acquire: AcquireOutcome): seq<JdbcCall> {
    if conn.Some? then [] else Prologue(handedOut, acquire)
  }

  /** The caller's parameter list, which setValue grows in place. */
  class ValueList {
    var items: seq<BoundValue>

    constructor ()
      ensures items == []
    {
      items := [];
    }
  }

  method SetValue(values: ValueList, sqlType: int, value: Value)
    modifies values
    ensures values.items == old(values.items) + [BoundValue(sqlType, value)]
  {
    values.items := values.items + [BoundValue(sqlType, value)];
  }

  class BatchExecutor {
    const backtick: string
    var conn: Option<nat>
    var idx: int
    /** How many connections the data source has handed out; the next one is numbered `handedOut`. */
    var handedOut: nat
    var calls: seq<JdbcCall>

    ghost predicate Valid()
      reads this
    {
      conn.Some? ==> conn.value < handedOut
    }

    /** `urlQuote` stands for the quote string derived from a Hikari pool's
        JDBC URL; any other data source gets no quoting. */
    constructor (kind: DataSourceKind, urlQuote: string)
      ensures backtick == (if kind == Hikari then urlQuote else "")
      ensures conn == None && idx == 0 && handedOut == 0 && calls == []
      ensures Valid()
    {
      backtick := if kind == Hikari then urlQuote else "";
      conn := None;
      idx := 0;
      handedOut := 0;
      calls := [];
    }

    /** Acquires a connection only when none is held; a failure is logged
        and leaves whatever was obtained. */
    method GetConn(acquire: AcquireOutcome) returns (c: Option<nat>)
      requires Valid()
      modifies this`conn, this`handedOut, this`calls
      ensures Valid()
      ensures c == conn
      ensures conn == ConnAfter(old(conn), old(handedOut), acquire)
      ensures handedOut == HandedOutAfter(old(conn), old(handedOut), acquire)
      ensures calls == old(calls) + CallsOfAcquire(old(conn), old(handedOut), acquire)
      ensures old(conn).Some? ==> conn == old(conn) && handedOut == old(handedOut) && calls == old(calls)
    {
      if conn.None? {
        if acquire != GetConnectionFails {
          conn := Some(handedOut);
          calls := calls + [Opened(handedOut)];
          handedOut := handedOut + 1;
          if acquire == Acquired {
            calls := calls + [AutoCommitOff(conn.value)];
          }
        }
      }
      c := conn;
    }

    /** Binds every entry and runs the statement once; `fails` says whether
        the driver rejects it. The counter counts statements, not rows. */
    method Execute(sql: string, values: seq<BoundValue>, acquire: AcquireOutcome, fails: bool) returns (r: CallOutcome)
      requires Valid()
      modifies this`conn, this`handedOut, this`calls, this`idx
      ensures Valid()
      ensures conn == ConnAfter(old(conn), old(handedOut), acquire)
      ensures handedOut == HandedOutAfter(old(conn), old(handedOut), acquire)
      ensures r == NoConnection <==> conn.None?
      ensures r == SqlError <==> conn.Some? && fails
      ensures r == Done ==> calls == old(calls) + CallsOfAcquire(old(conn), old(handedOut), acquire)
                                    + [Ran(conn.value, sql, Bindings(values))]
      ensures r == Done ==> idx == old(idx) + 1
      ensures r != Done ==> calls == old(calls) + CallsOfAcquire(old(conn), old(handedOut), acquire)
      ensures r != Done ==> idx == old(idx)
    {
      var c := GetConn(acquire);
      if c.None? {
        return NoConnection;
      }
      var bindings: seq<Binding> := [];
      var i := 0;
      while i < |values|
        invariant 0 <= i <= |values|
        invariant bindings == Bindings(values[..i])
      {
        bindings := bindings + [Binding(i + 1, BindActionFor(values[i].sqlType, values[i].value))];
        i := i + 1;
      }
      assert values[..i] == values;
      if fails {
        return SqlError;
      }
      calls := calls + [Ran(c.value, sql, bindings)];
      idx := idx + 1;
      r := Done;
    }

    method Commit(acquire: AcquireOutcome, fails: bool) returns (r: CallOutcome)
      requires Valid()
      modifies this`conn, this`handedOut, this`calls, this`idx
      ensures Valid()
      ensures conn == ConnAfter(old(conn), old(handedOut), acquire)
      ensures handedOut == HandedOutAfter(old(conn), old(handedOut), acquire)
      ensures r == NoConnection <==> conn.None?
      ensures r == SqlError <==> conn.Some? && fails
      ensures r == Done ==> calls == old(calls) + CallsOfAcquire(old(conn), old(handedOut), acquire) + [Committed(conn.value)]
      ensures r == Done ==> idx == 0
      ensures r != Done ==> calls == old(calls) + CallsOfAcquire(old(conn), old(handedOut), acquire)
      ensures r != Done ==> idx == old(idx)
    {
      var c := GetConn(acquire);
      if c.None? {
        return NoConnection;
      }
      if fails {
        return SqlError;
      }
      calls := calls + [Committed(c.value)];
      idx := 0;
      r := Done;
    }

    method Rollback(acquire: AcquireOutcome, fails: bool) returns (r: CallOutcome)
      requires Valid()
      modifies this`conn, this`handedOut, this`calls, this`idx
      ensures Valid()
      ensures conn == ConnAfter(old(conn), old(handedOut), acquire)
      ensures handedOut == HandedOutAfter(old(conn), old(handedOut), acquire)
      ensures r == NoConnection <==> conn.None?
      ensures r == SqlError <==> conn.Some? && fails
      ensures r == Done ==> calls == old(calls) + CallsOfAcquire(old(conn), old(handedOut), acquire) + [RolledBack(conn.value)]
      ensures r == Done ==> idx == 0
      ensures r != Done ==> calls == old(calls) + CallsOfAcquire(old(conn), old(handedOut), acquire)
      ensures r != Done ==> idx == old(idx)
    {
      var c := GetConn(acquire);
      if c.None? {
        return NoConnection;
      }
      if fails {
        return SqlError;
      }
      calls := calls + [RolledBack(c.value)];
      idx := 0;
      r := Done;
    }

    /** Closes a held connection; the reference is dropped even when
        closing fails, so a second close does nothing. */
    method Close(fails: bool)
      requires Valid()
      modifies this`conn, this`calls
      ensures Valid()
      ensures conn == None
      ensures old(conn).Some? && !fails ==> calls == old(calls) + [Closed(old(conn).value)]
      ensures old(conn).None? || fails ==> calls == old(calls)
    {
      if conn.Some? {
        if !fails {
          calls := calls + [Closed(conn.value)];
        }
        conn := None;
      }
    }
  }

  /** A closed executor asks the data source again and gets a connection
      it has not used before; closing twice records one close. */
  method CloseThenReconnect(e: BatchExecutor) returns (first: Option<nat>, second: Option<nat>)
    requires e.Valid()
    modifies e
    ensures first.Some? && second.Some? && first != second
    ensures e.calls == old(e.calls) + CallsOfAcquire(old(e.conn), old(e.handedOut), Acquired) +
                       [Closed(first.value), Opened(second.value), AutoCommitOff(second.value)]
  {
    first := e.GetConn(Acquired);
    var again := e.GetConn(Acquired);
    assert again == first;
    e.Close(false);
    var n := |e.calls|;
    e.Close(false);
    assert |e.calls| == n;
    second := e.GetConn(Acquired);
  }
}
