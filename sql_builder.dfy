/** The SQL text builder: a buffer grown at the tail, identifier quoting
    with a quote string fixed at construction, repetition of a pattern and
    trimming of trailing characters. */
module SqlText {

  /** An identifier wrapped in the dialect's quote string. */
  function Quoted(q: string, s: string): string {
    q + s + q
  }

  /** `n` copies of `s`, one after another. */
  function Repeat(s: string, n: nat): (r: string)
    ensures |r| == n * |s|
  {
    if n == 0 then "" else Repeat(s, n - 1) + s
  }

  /** The text `appendJoinWithBacktick(d, es)` appends: each element quoted
      and followed by the delimiter. */
  function QuotedEach(q: string, d: string, es: seq<string>): string {
    if es == [] then "" else QuotedEach(q, d, es[..|es| - 1]) + Quoted(q, es[|es| - 1]) + d
  }

  /** Reference definition: the parts separated by `sep`, no separator at either end. */
  function Join(parts: seq<string>, sep: string): string {
    if |parts| == 0 then ""
    else if |parts| == 1 then parts[0]
    else Join(parts[..|parts| - 1], sep) + sep + parts[|parts| - 1]
  }

  function QuoteAll(q: string, es: seq<string>): (r: seq<string>)
    ensures |r| == |es|
    ensures forall i :: 0 <= i < |es| ==> r[i] == Quoted(q, es[i])
  {
    seq(|es|, i requires 0 <= i < |es| => Quoted(q, es[i]))
  }

  function Copies(s: string, n: nat): (r: seq<string>)
    ensures |r| == n
    ensures forall i :: 0 <= i < n ==> r[i] == s
  {
    seq(n, i => s)
  }

  /** The buffer once its last `n` characters are deleted. */
  function DropLast(s: string, n: nat): (r: string)
    requires n <= |s|
    ensures |r| == |s| - n
    ensures r == s[..|s| - n]
  {
    s[..|s| - n]
  }

  lemma {:induction false} DeleteUndoesAppend(b: string, s: string)
    ensures DropLast(b + s, |s|) == b
  {
    assert (b + s)[..|b|] == b;
  }

  lemma {:induction false} DropLastOfConcat(a: string, b: string, n: nat)
    requires n <= |b|
    ensures DropLast(a + b, n) == a + DropLast(b, n)
  {
    assert (a + b)[..|a + b| - n] == a + b[..|b| - n];
  }

  /** The quoted list ends in the delimiter and, without it, is the
      delimiter-join of the quoted elements. */
  lemma {:induction false} QuotedEachIsJoinPlusDelimiter(q: string, d: string, es: seq<string>)
    requires es != []
    ensures QuotedEach(q, d, es) == Join(QuoteAll(q, es), d) + d
    ensures DropLast(QuotedEach(q, d, es), |d|) == Join(QuoteAll(q, es), d)
  {
    var n := |es|;
    var qs := QuoteAll(q, es);
    if n == 1 {
      assert es[..0] == [];
      assert QuotedEach(q, d, es) == QuotedEach(q, d, []) + Quoted(q, es[0]) + d;
    } else {
      var init := es[..n - 1];
      QuotedEachIsJoinPlusDelimiter(q, d, init);
      assert qs[..n - 1] == QuoteAll(q, init);
      assert Join(qs, d) == Join(QuoteAll(q, init), d) + d + Quoted(q, es[n - 1]);
      assert QuotedEach(q, d, es) == QuotedEach(q, d, init) + Quoted(q, es[n - 1]) + d;
    }
    DeleteUndoesAppend(Join(qs, d), d);
  }

  /** `appendRepeat(n, "?,")` followed by `deleteBehind(1)` renders n
      placeholders separated by commas. */
  lemma {:induction false} PlaceholderRun(n: nat)
    requires n >= 1
    ensures Repeat("?,", n) == Join(Copies("?", n), ",") + ","
    ensures DropLast(Repeat("?,", n), 1) == Join(Copies("?", n), ",")
  {
    if n > 1 {
      PlaceholderRun(n - 1);
      assert Copies("?", n)[..n - 1] == Copies("?", n - 1);
    }
    DeleteUndoesAppend(Join(Copies("?", n), ","), ",");
  }

  /** The mutable text buffer behind every statement (a StringBuilder). */
  class SqlBuilder {
    const backtick: string
    var buffer: string

    constructor (backtick: string)
      ensures this.backtick == backtick && buffer == ""
    {
      this.backtick := backtick;
      buffer := "";
    }

    constructor WithSql(sql: string, backtick: string)
      ensures this.backtick == backtick && buffer == sql
    {
      this.backtick := backtick;
      buffer := sql;
    }

    method Append(s: string)
      modifies this`buffer
      ensures buffer == old(buffer) + s
    {
      buffer := buffer + s;
    }

    method AppendWithBacktick(s: string)
      modifies this`buffer
      ensures buffer == old(buffer) + Quoted(backtick, s)
    {
      Append(backtick);
      Append(s);
      Append(backtick);
    }

    /** A count of zero or less appends nothing. */
    method AppendRepeat(count: int, s: string)
      modifies this`buffer
      ensures buffer == old(buffer) + Repeat(s, if count < 0 then 0 else count)
    {
      var i := 0;
      while i < count
        invariant count < 0 ==> i == 0
        invariant count >= 0 ==> 0 <= i <= count
        invariant buffer == old(buffer) + Repeat(s, i)
      {
        Append(s);
        i := i + 1;
      }
    }

    method AppendJoinWithBacktick(delimiter: string, elements: seq<string>)
      modifies this`buffer
      ensures buffer == old(buffer) + QuotedEach(backtick, delimiter, elements)
    {
      var i := 0;
      while i < |elements|
        invariant 0 <= i <= |elements|
        invariant buffer == old(buffer) + QuotedEach(backtick, delimiter, elements[..i])
      {
        assert elements[..i + 1][..i] == elements[..i];
        AppendWithBacktick(elements[i]);
        Append(delimiter);
        i := i + 1;
      }
      assert elements[..i] == elements;
    }

    /** StringBuilder.delete(len - num, len) throws unless 0 <= num <= len. */
    method DeleteBehind(num: int)
      requires 0 <= num <= |buffer|
      modifies this`buffer
      ensures buffer == DropLast(old(buffer), num)
    {
      buffer := buffer[..|buffer| - num];
    }

    method ToString() returns (s: string)
      ensures s == buffer
    {
      s := buffer;
    }
  }
}
