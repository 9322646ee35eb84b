/** Decision tables of the sink's utility class: how a (type tag, value)
    pair is bound onto a statement parameter, which quote string a dialect
    uses, how the local UTC offset is written, and how a date string is
    prepared for the date-time parser. */
module SyncUtil {
  import opened Etl

  /** The PreparedStatement setter chosen for one parameter, with the
      argument it receives. Conversions done by Java library code
      (shortValue, Short.parseShort, new BigDecimal(double), the date-time
      parser) are kept as the value or text they start from. */
  datatype BindAction =
    | BindNull(sqlType: int)                    // setNull(i, type)
    | BindBoolean(flag: bool)                   // setBoolean
    | BindString(text: string)                  // setString
    | BindShort(source: Value)                  // setShort(shortValue() or Short.parseShort)
    | BindInt(source: Value)                    // setInt(intValue() or Integer.parseInt)
    | BindLong(source: Value)                   // setLong(longValue() or Long.parseLong)
    | BindFloat(source: Value)                  // setFloat
    | BindDouble(source: Value)                 // setDouble
    | BindDecimal(source: Value)                // setBigDecimal(the decimal, or new BigDecimal(float|double))
    | BindDecimalText(text: string)             // setBigDecimal(new BigDecimal(text))
    | BindBlob(source: Value)                   // setBlob
    | BindBytes(bytes: seq<bv8>)                // setBytes
    | BindLatin1(text: string)                  // setBytes(text.getBytes(ISO_8859_1))
    | BindClob(source: Value)                   // setClob
    | BindCharacterStream(text: string)         // setCharacterStream(new StringReader(text))
    | BindDate(millis: int)                     // setDate at that instant
    | BindTime(millis: int)                     // setTime at that instant
    | BindTimestamp(millis: int)                // setTimestamp at that instant
    | BindParsedDate(text: string)              // setDate(parse of the prepared text)
    | BindParsedTime(text: string)              // setTime(parse of the prepared text)
    | BindParsedTimestamp(text: string)         // setTimestamp(parse of the prepared text)
    | BindObject(source: Value)                 // setObject(i, value)
    | BindTypedObject(source: Value, sqlType: int)  // setObject(i, value, type)

  predicate BooleanType(t: int) { t == BIT || t == BOOLEAN }
  predicate CharacterType(t: int) { t == CHAR || t == NCHAR || t == VARCHAR || t == LONGVARCHAR }
  predicate IntegerType(t: int) { t == TINYINT || t == SMALLINT || t == INTEGER || t == BIGINT }
  predicate DecimalType(t: int) { t == DECIMAL || t == NUMERIC }
  predicate ApproximateType(t: int) { t == REAL || t == FLOAT || t == DOUBLE }
  predicate BinaryType(t: int) { t == BINARY || t == VARBINARY || t == LONGVARBINARY || t == BLOB }
  predicate TemporalType(t: int) { t == DATE || t == TIME || t == TIMESTAMP }

  /** The type tags the switch lists; every other tag takes the default branch. */
  predicate Listed(t: int) {
    BooleanType(t) || CharacterType(t) || IntegerType(t) || DecimalType(t) || ApproximateType(t)
    || BinaryType(t) || t == CLOB || TemporalType(t)
  }

  /** The all-zero date some source databases send, which is bound unparsed. */
  predicate ZeroDate(s: string) {
    "0000-00-00" <= s
  }

  function BindDateText(t: int, s: string): (r: BindAction)
    requires TemporalType(t)
    ensures r.BindNull? <==> s == ""
    ensures r.BindNull? ==> r.sqlType == t
  {
    match ParseDate(Some(s))
    case None => BindNull(t)
    case Some(prepared) =>
      if t == DATE then BindParsedDate(prepared)
      else if t == TIME then BindParsedTime(prepared)
      else BindParsedTimestamp(prepared)
  }

  /** setPStmt as a table from (type tag, value shape) to the setter called. */
  function BindActionFor(t: int, v: Value): (r: BindAction)
    ensures Listed(t) && v.Null? ==> r == BindNull(t)
    ensures !Listed(t) ==> r == BindTypedObject(v, t)
    ensures r.BindNull? ==> r.sqlType == t
    ensures BooleanType(t) ==> (r.BindBoolean? <==> v.Bool? || v.Str? || v.Num?)
    ensures BooleanType(t) && v.Bool? ==> r == BindBoolean(v.b)
    ensures BooleanType(t) && v.Str? ==> r == BindBoolean(v.s != "0")
    ensures BooleanType(t) && v.Num? ==> r == BindBoolean(v.intValue != 0)
    ensures CharacterType(t) && !v.Null? ==> r == BindString(Text(v))
    ensures IntegerType(t) ==> (r.BindNull? <==> !(v.Num? || v.Str?))
    ensures r.BindObject? <==> (t == DATE || t == TIMESTAMP) && v.Str? && ZeroDate(v.s)
    ensures r.BindObject? ==> r.source == v
    ensures TemporalType(t) && v.Str? && !r.BindObject? ==> (r.BindNull? <==> v.s == "")
  {
    if BooleanType(t) then
      match v
      case Bool(b) => BindBoolean(b)
      case Str(s) => BindBoolean(s != "0")
      case Num(_, n, _) => BindBoolean(n != 0)
      case _ => BindNull(t)
    else if CharacterType(t) then
      if v.Null? then BindNull(t) else BindString(Text(v))
    else if t == TINYINT then
      if v.Num? || v.Str? then BindShort(v) else BindNull(t)
    else if t == SMALLINT then
      if v.Num? || v.Str? then BindInt(v) else BindNull(t)
    else if t == INTEGER then
      if v.Num? || v.Str? then BindLong(v) else BindNull(t)
    else if t == BIGINT then
      if v.Num? || v.Str? then BindDecimalText(Text(v)) else BindNull(t)
    else if DecimalType(t) then
      match v
      case Null => BindNull(t)
      case Num(k, _, repr) =>
        (match k
         case BigDecimalNum => BindDecimal(v)
         case ByteNum => BindInt(v)
         case ShortNum => BindInt(v)
         case IntegerNum => BindInt(v)
         case LongNum => BindLong(v)
         case FloatNum => BindDecimal(v)
         case DoubleNum => BindDecimal(v)
         case OtherNum => BindDecimalText(repr))
      case _ => BindDecimalText(Text(v))
    else if t == REAL then
      if v.Num? || v.Str? then BindFloat(v) else BindNull(t)
    else if t == FLOAT || t == DOUBLE then
      if v.Num? || v.Str? then BindDouble(v) else BindNull(t)
    else if BinaryType(t) then
      match v
      case BlobRef(_, _) => BindBlob(v)
      case Bytes(_, bs, _) => BindBytes(bs)
      case Str(s) => BindLatin1(s)
      case _ => BindNull(t)
    else if t == CLOB then
      match v
      case ClobRef(_, _) => BindClob(v)
      case Bytes(_, bs, _) => BindBytes(bs)
      case Str(s) => BindCharacterStream(s)
      case _ => BindNull(t)
    else if t == DATE then
      match v
      case Temporal(_, m, _) => BindDate(m)
      case Str(s) => if ZeroDate(s) then BindObject(v) else BindDateText(t, s)
      case _ => BindNull(t)
    else if t == TIME then
      match v
      case Temporal(_, m, _) => BindTime(m)
      case Str(s) => BindDateText(t, s)
      case _ => BindNull(t)
    else if t == TIMESTAMP then
      match v
      case Temporal(_, m, _) => BindTimestamp(m)
      case Str(s) => if ZeroDate(s) then BindObject(v) else BindDateText(t, s)
      case _ => BindNull(t)
    else
      BindTypedObject(v, t)
  }

  /** The small integer types are bound one width up; BIGINT as a decimal
      built from the value's text. */
  lemma IntegerWidening(v: Value)
    requires v.Num? || v.Str?
    ensures BindActionFor(TINYINT, v) == BindShort(v)
    ensures BindActionFor(SMALLINT, v) == BindInt(v)
    ensures BindActionFor(INTEGER, v) == BindLong(v)
    ensures BindActionFor(BIGINT, v) == BindDecimalText(Text(v))
  {
  }

  /** Exact numerics: decimals stay decimals, narrow integers go to setInt,
      longs to setLong, binary floats through a decimal, and any other
      non-null value through its text. */
  lemma DecimalBinding(t: int, v: Value)
    requires DecimalType(t)
    ensures v.Num? && v.numKind in {ByteNum, ShortNum, IntegerNum} ==> BindActionFor(t, v) == BindInt(v)
    ensures v.Num? && v.numKind == LongNum ==> BindActionFor(t, v) == BindLong(v)
    ensures v.Num? && v.numKind in {BigDecimalNum, FloatNum, DoubleNum} ==> BindActionFor(t, v) == BindDecimal(v)
    ensures !v.Num? && !v.Null? ==> BindActionFor(t, v) == BindDecimalText(Text(v))
  {
  }

  /** Binary and character large objects accept a handle, raw bytes or a string. */
  lemma LargeObjectBinding(t: int, v: Value)
    ensures BinaryType(t) && v.Str? ==> BindActionFor(t, v) == BindLatin1(v.s)
    ensures (BinaryType(t) || t == CLOB) && v.Bytes? ==> BindActionFor(t, v) == BindBytes(v.bytes)
    ensures t == CLOB && v.Str? ==> BindActionFor(t, v) == BindCharacterStream(v.s)
    ensures BinaryType(t) && !(v.BlobRef? || v.Bytes? || v.Str?) ==> BindActionFor(t, v) == BindNull(t)
    ensures t == CLOB && !(v.ClobRef? || v.Bytes? || v.Str?) ==> BindActionFor(t, v) == BindNull(t)
  {
  }

  /** A native date or time value of any kind is bound at its instant. */
  lemma TemporalBinding(v: Value)
    requires v.Temporal?
    ensures BindActionFor(DATE, v) == BindDate(v.millis)
    ensures BindActionFor(TIME, v) == BindTime(v.millis)
    ensures BindActionFor(TIMESTAMP, v) == BindTimestamp(v.millis)
  {
  }

  // ---------------------------------------------------------------------
  // Dialect quoting

  /** Druid's DbType constants the quoting switch names, `OtherDb` for
      DbType.other, and `OtherConstant` for each remaining constant. */
  datatype DbType = Mysql | Mariadb | Oceanbase | Postgresql | OtherDb | OtherConstant(name: string)

  /** `dbType` is the result of DbType.of, None when it returned null. */
  function BacktickByDbType(dbType: Option<DbType>): (q: string)
    ensures q == "`" <==> dbType in {Some(Mysql), Some(Mariadb), Some(Oceanbase)}
    ensures q == "\"" <==> dbType == Some(Postgresql)
    ensures q == "" <==> dbType !in {Some(Mysql), Some(Mariadb), Some(Oceanbase), Some(Postgresql)}
  {
    var t := if dbType.None? then OtherDb else dbType.value;
    match t
    case Mysql => "`"
    case Mariadb => "`"
    case Oceanbase => "`"
    case Postgresql => "\""
    case _ => ""
  }

  // ---------------------------------------------------------------------
  // The local UTC offset as "+HH:MM"

  const HourMillis: int := 3600000
  const MinuteMillis: int := 60000

  function DigitChar(d: nat): (c: char)
    requires d < 10
    ensures '0' <= c <= '9' && c as int - '0' as int == d
  {
    ('0' as int + d) as char
  }

  predicate AllDigits(s: string) {
    forall i :: 0 <= i < |s| ==> '0' <= s[i] <= '9'
  }

  /** Integer.toString of a non-negative number. */
  function Digits(n: nat): (r: string)
    ensures |r| >= 1 && AllDigits(r)
    ensures n < 10 ==> |r| == 1
    ensures 10 <= n < 100 ==> |r| == 2
  {
    if n < 10 then [DigitChar(n)] else Digits(n / 10) + [DigitChar(n % 10)]
  }

  /** Reading a run of decimal digits back as a number. */
  function DigitsValue(s: string): nat
    requires AllDigits(s)
  {
    if s == [] then 0 else DigitsValue(s[..|s| - 1]) * 10 + (s[|s| - 1] as int - '0' as int)
  }

  lemma {:induction false} DigitsRoundTrip(n: nat)
    ensures DigitsValue(Digits(n)) == n
  {
    if n >= 10 {
      DigitsRoundTrip(n / 10);
      var d := Digits(n);
      assert d[..|d| - 1] == Digits(n / 10);
    }
  }

  /** String.format("%1$02d", n): at least two digits, zero-padded. */
  function Pad2(n: nat): (r: string)
    ensures AllDigits(r) && |r| >= 2
    ensures n < 100 ==> |r| == 2
    ensures DigitsValue(r) == n
  {
    DigitsRoundTrip(n);
    if n < 10 then
      var r := "0" + Digits(n);
      assert r[..1] == "0";
      r
    else Digits(n)
  }

  /** The timeZone string the static initialiser derives from the raw
      offset (milliseconds). Integer.MIN_VALUE, for which Math.abs stays
      negative, is excluded: no time zone has such an offset. */
  function OffsetString(rawOffset: int): (r: string)
    requires -0x8000_0000 < rawOffset < 0x8000_0000
    ensures |r| >= 6 && r[0] == (if rawOffset < 0 then '-' else '+') && r[|r| - 3] == ':'
    ensures AllDigits(r[1..|r| - 3]) && AllDigits(r[|r| - 2..])
    ensures DigitsValue(r[1..|r| - 3]) == Abs(rawOffset) / HourMillis
    ensures DigitsValue(r[|r| - 2..]) == Abs(rawOffset) % HourMillis / MinuteMillis < 60
    ensures Abs(rawOffset) / HourMillis < 100 ==> |r| == 6
  {
    var sign := if rawOffset < 0 then "-" else "+";
    var abs := Abs(rawOffset);
    MinutesBelowHour(abs);
    var hh := Pad2(abs / HourMillis);
    var mm := Pad2(abs % HourMillis / MinuteMillis);
    OffsetParts(sign, hh, mm);
    sign + hh + ":" + mm
  }

  lemma MinutesBelowHour(a: nat)
    ensures a % HourMillis / MinuteMillis < 60
  {
  }

  lemma OffsetParts(sign: string, hh: string, mm: string)
    requires |sign| == 1 && |hh| >= 2 && |mm| == 2
    ensures var r := sign + hh + ":" + mm;
            |r| == |hh| + 4 && r[0] == sign[0] && r[|r| - 3] == ':' && r[1..|r| - 3] == hh && r[|r| - 2..] == mm
  {
    var r := sign + hh + ":" + mm;
    assert r[1..|r| - 3] == hh;
    assert r[|r| - 2..] == mm;
  }

  function Abs(x: int): nat {
    if x < 0 then -x else x
  }

  /** Reading a "+HH:MM" string back as milliseconds east of UTC. */
  function OffsetMillis(s: string): int
    requires |s| >= 4 && AllDigits(s[1..|s| - 3]) && AllDigits(s[|s| - 2..])
  {
    var magnitude := DigitsValue(s[1..|s| - 3]) * HourMillis + DigitsValue(s[|s| - 2..]) * MinuteMillis;
    if s[0] == '-' then -magnitude else magnitude
  }

  /** Round trip: the offset string denotes the raw offset truncated toward
      zero to whole minutes, with the sign kept. */
  lemma OffsetRoundTrip(rawOffset: int)
    requires -0x8000_0000 < rawOffset < 0x8000_0000
    ensures var m := Abs(rawOffset) - Abs(rawOffset) % MinuteMillis;
            OffsetMillis(OffsetString(rawOffset)) == if rawOffset < 0 then -m else m
  {
    MinuteTruncation(Abs(rawOffset));
  }

  /** Whole hours plus whole minutes of the rest are the milliseconds
      truncated to whole minutes. */
  lemma MinuteTruncation(a: nat)
    ensures (a / HourMillis) * HourMillis + (a % HourMillis / MinuteMillis) * MinuteMillis == a - a % MinuteMillis
  {
    var h := a / HourMillis;
    var rem := a % HourMillis;
    var mi := rem / MinuteMillis;
    var x := rem % MinuteMillis;
    assert a == h * HourMillis + rem;
    assert rem == mi * MinuteMillis + x;
    assert a == (h * 60 + mi) * MinuteMillis + x;
    assert a % MinuteMillis == x;
  }

  // ---------------------------------------------------------------------
  // parseDate's preparation of the text

  /** String.trim drops leading and trailing characters up to U+0020. */
  function TrimStart(s: string): (r: string)
    ensures |r| <= |s| && r == s[|s| - |r|..]
    ensures r == [] || r[0] > ' '
  {
    if s != [] && s[0] <= ' ' then TrimStart(s[1..]) else s
  }

  function TrimEnd(s: string): (r: string)
    ensures |r| <= |s| && r == s[..|r|]
    ensures r == [] || r[|r| - 1] > ' '
  {
    if s != [] && s[|s| - 1] <= ' ' then TrimEnd(s[..|s| - 1]) else s
  }

  /** What TrimStart drops is whitespace or control characters only. */
  lemma {:induction false} TrimStartDropsBlanks(s: string)
    ensures forall i :: 0 <= i < |s| - |TrimStart(s)| ==> s[i] <= ' '
  {
    if s != [] && s[0] <= ' ' {
      TrimStartDropsBlanks(s[1..]);
      forall i | 1 <= i < |s| - |TrimStart(s)|
        ensures s[i] <= ' '
      {
        assert s[i] == s[1..][i - 1];
      }
    }
  }

  lemma {:induction false} TrimEndDropsBlanks(s: string)
    ensures forall i :: |TrimEnd(s)| <= i < |s| ==> s[i] <= ' '
  {
    if s != [] && s[|s| - 1] <= ' ' {
      TrimEndDropsBlanks(s[..|s| - 1]);
      forall i | |TrimEnd(s)| <= i < |s| - 1
        ensures s[i] <= ' '
      {
        assert s[i] == s[..|s| - 1][i];
      }
    }
  }

  function Trim(s: string): (r: string)
    ensures r == [] || (r[0] > ' ' && r[|r| - 1] > ' ')
    ensures |r| <= |s|
  {
    TrimEnd(TrimStart(s))
  }

  /** String.replace(" ", "T"). */
  function ReplaceSpaces(s: string): (r: string)
    ensures |r| == |s|
    ensures forall i :: 0 <= i < |s| ==> r[i] == if s[i] == ' ' then 'T' else s[i]
  {
    if s == [] then [] else [if s[0] == ' ' then 'T' else s[0]] + ReplaceSpaces(s[1..])
  }

  /** The rewrites applied to the trimmed text before parsing: a date and a
      time get the ISO 'T' separator, a bare time gets a 'T' prefix. */
  function NormalizeDateText(t: string): (r: string)
    ensures '-' !in t && ':' in t ==> r == "T" + t
    ensures ':' !in t ==> r == t
  {
    if '-' in t then
      if ':' in t then ReplaceSpaces(t) else t
    else if ':' in t then "T" + t
    else t
  }

  /** A date with a time keeps its length and every character but the
      spaces, which all become the ISO separator. */
  lemma {:induction false} DateTimeSeparator(t: string)
    requires '-' in t && ':' in t
    ensures var r := NormalizeDateText(t);
            |r| == |t| && ' ' !in r && forall i :: 0 <= i < |t| && t[i] != ' ' ==> r[i] == t[i]
  {
    ReplaceSpacesNoSpace(t);
  }

  /** parseDate up to the call of the date-time parser: None where it
      returns null, otherwise the text the parser receives. */
  function ParseDate(s: Option<string>): (r: Option<string>)
    ensures r.None? <==> s.None? || s.value == ""
  {
    if s.None? || s.value == "" then None else Some(NormalizeDateText(Trim(s.value)))
  }

  /** The prepared text has no whitespace at either end. */
  lemma {:induction false} PreparedTextIsTrimmed(s: string)
    requires s != ""
    ensures var r := ParseDate(Some(s)).value;
            r == [] || (r[0] > ' ' && r[|r| - 1] > ' ')
  {
    var t := Trim(s);
    assert ParseDate(Some(s)) == Some(NormalizeDateText(t));
    NormalizeKeepsEnds(t);
  }

  lemma {:induction false} NormalizeKeepsEnds(t: string)
    requires t == [] || (t[0] > ' ' && t[|t| - 1] > ' ')
    ensures var r := NormalizeDateText(t);
            r == [] || (r[0] > ' ' && r[|r| - 1] > ' ')
  {
    var r := NormalizeDateText(t);
    if '-' in t && ':' in t {
      DateTimeSeparator(t);
      assert r[0] == t[0] && r[|r| - 1] == t[|t| - 1];
    } else if ':' in t {
      assert r[0] == 'T' && r[|r| - 1] == t[|t| - 1];
    }
  }

  /** Preparing a text that holds a date part a second time changes nothing. */
  lemma {:induction false} PrepareIdempotentForDates(s: string)
    requires s != "" && '-' in Trim(s)
    ensures var r := ParseDate(Some(s)).value;
            r != "" && ParseDate(Some(r)) == Some(r)
  {
    ParseDateOfText(s);
    PrepareAgain(Trim(s));
  }

  lemma ParseDateOfText(s: string)
    requires s != ""
    ensures ParseDate(Some(s)) == Some(NormalizeDateText(Trim(s)))
  {
  }

  lemma {:induction false} PrepareAgain(t: string)
    requires '-' in t && (t == [] || (t[0] > ' ' && t[|t| - 1] > ' '))
    ensures NormalizeDateText(t) != ""
    ensures ParseDate(Some(NormalizeDateText(t))) == Some(NormalizeDateText(t))
  {
    NormalizeFixedOnDates(t);
  }

  lemma {:induction false} NormalizeFixedOnDates(t: string)
    requires '-' in t && (t == [] || (t[0] > ' ' && t[|t| - 1] > ' '))
    ensures var r := NormalizeDateText(t);
            r != "" && '-' in r && NormalizeDateText(Trim(r)) == r
  {
    if ':' in t {
      DateTimeFixed(t);
    } else {
      TrimOfTrimmed(t);
    }
  }

  /** A date with a time: the spaces became 'T', and the result is fixed. */
  lemma {:induction false} DateTimeFixed(t: string)
    requires '-' in t && ':' in t && t != [] && t[0] > ' ' && t[|t| - 1] > ' '
    ensures var r := ReplaceSpaces(t);
            r != "" && '-' in r && ':' in r && NormalizeDateText(Trim(r)) == r
  {
    var r := ReplaceSpaces(t);
    ReplaceSpacesKeeps(t, '-');
    ReplaceSpacesKeeps(t, ':');
    ReplaceSpacesNoSpace(t);
    assert r[0] == t[0] && r[|r| - 1] == t[|t| - 1];
    TrimOfTrimmed(r);
    ReplaceSpacesFixed(r);
  }

  lemma {:induction false} ReplaceSpacesKeeps(t: string, ch: char)
    requires ch != ' ' && ch in t
    ensures ch in ReplaceSpaces(t)
  {
    var k :| 0 <= k < |t| && t[k] == ch;
    assert ReplaceSpaces(t)[k] == ch;
  }

  lemma {:induction false} ReplaceSpacesNoSpace(t: string)
    ensures ' ' !in ReplaceSpaces(t)
  {
    var r := ReplaceSpaces(t);
    forall i | 0 <= i < |r|
      ensures r[i] != ' '
    {
    }
  }

  lemma {:induction false} TrimOfTrimmed(r: string)
    requires r == [] || (r[0] > ' ' && r[|r| - 1] > ' ')
    ensures Trim(r) == r
  {
  }

  lemma {:induction false} ReplaceSpacesFixed(r: string)
    requires ' ' !in r
    ensures ReplaceSpaces(r) == r
  {
  }
}
