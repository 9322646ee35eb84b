/** One DML record: a row of a message with its changed-column names, the
    key signatures it touches, a no-op flag and a priority offset per
    statement kind. */
module Dml {
  import opened Etl
  import opened Load
  import LoadFacts

  /** Character.toUpperCase on the ASCII letters; every other character is
      left as it is. */
  function AsciiUpper(c: char): char {
    if 'a' <= c <= 'z' then (c as int - 32) as char else c
  }

  /** String.equalsIgnoreCase, character by character. */
  predicate EqualsIgnoreCase(a: string, b: string) {
    |a| == |b| && forall i :: 0 <= i < |a| ==> AsciiUpper(a[i]) == AsciiUpper(b[i])
  }

  predicate IsUpdate(t: string) {
    EqualsIgnoreCase(t, "UPDATE")
  }

  /** The key signature of a row: the text of each primary-key value, in
      pkNames order, each followed by "+!#". */
  function Signature(pkNames: seq<string>, row: Row): string
    requires forall k :: 0 <= k < |pkNames| ==> HasColumn(row, pkNames[k])
  {
    if pkNames == [] then ""
    else
      var last := pkNames[|pkNames| - 1];
      assert HasColumn(row, last);
      Signature(pkNames[..|pkNames| - 1], row) + Text(Get(row, last).value.value) + "+!#"
  }

  /** The names of the new row's columns that are missing from the old row
      or hold a value that is not Objects.equals to the old one. */
  function ChangedNames(data: Row, oldRow: Row): (r: set<string>)
    ensures forall n :: n in r <==> exists c :: c in data && Changed(c, oldRow) && c.name == n
  {
    set c | c in data && Changed(c, oldRow) :: c.name
  }

  /** The offset addTypePriority adds: the type string is matched exactly. */
  function TypePriority(t: string): int {
    if t == "INSERT" then 1
    else if t == "UPDATE" then 2
    else if t == "DELETE" then 3
    else 0
  }

  class SingleDml {
    var eventType: string
    var isChange: bool
    var data: Row
    var oldRow: Option<Row>              // set for UPDATE only
    var dataKeys: set<string>
    var changedKeys: Option<set<string>> // built for UPDATE only
    var priority: int

    /** Row `index` of message `m`. The primary-key columns must be present
        in the new row, and for an update in the old row as well. */
    constructor (m: EtlMessage, index: nat)
      requires m.data.Some? && index < |m.data.value| && m.pkNames.Some?
      requires forall k :: 0 <= k < |m.pkNames.value| ==> HasColumn(m.data.value[index], m.pkNames.value[k])
      requires IsUpdate(m.eventType) ==>
                 m.oldRows.Some? && index < |m.oldRows.value|
                 && forall k :: 0 <= k < |m.pkNames.value| ==> HasColumn(m.oldRows.value[index], m.pkNames.value[k])
      ensures eventType == m.eventType && data == m.data.value[index] && priority == 0
      ensures IsUpdate(eventType) ==> oldRow == Some(m.oldRows.value[index])
                                      && changedKeys == Some(ChangedNames(data, oldRow.value))
      ensures !IsUpdate(eventType) ==> oldRow.None? && changedKeys.None?
      ensures isChange <==> !(IsUpdate(eventType) && ChangedNames(data, oldRow.value) == {})
      ensures dataKeys == {Signature(m.pkNames.value, data)}
                          + (if IsUpdate(eventType) then {Signature(m.pkNames.value, oldRow.value)} else {})
    {
      eventType := m.eventType;
      isChange := true;
      data := m.data.value[index];
      priority := 0;
      oldRow := None;
      changedKeys := None;
      dataKeys := {};
      new;
      if IsUpdate(eventType) {
        oldRow := Some(m.oldRows.value[index]);
        GenerateChangedKeys();
        if changedKeys.value == {} {
          isChange := false;
        }
      }
      GenerateDataKeys(m.pkNames.value);
    }

    /** generateChangedKeys: one pass over the new row's columns. */
    method GenerateChangedKeys()
      requires oldRow.Some?
      modifies this`changedKeys
      ensures changedKeys == Some(ChangedNames(data, oldRow.value))
    {
      var names: set<string> := {};
      var i := 0;
      while i < |data|
        invariant 0 <= i <= |data|
        invariant names == ChangedNames(data[..i], oldRow.value)
      {
        var column := data[i];
        var oldColumn := Get(oldRow.value, column.name);
        if oldColumn.None? || !SameValue(column.value, oldColumn.value.value) {
          names := names + {column.name};
        }
        ChangedNamesStep(data, oldRow.value, i);
        i := i + 1;
      }
      assert data[..i] == data;
      changedKeys := Some(names);
    }

    /** generateDataKeys: the new row's signature, and for an update the
        old row's as well. */
    method GenerateDataKeys(pkNames: seq<string>)
      requires forall k :: 0 <= k < |pkNames| ==> HasColumn(data, pkNames[k])
      requires IsUpdate(eventType) ==> oldRow.Some? && forall k :: 0 <= k < |pkNames| ==> HasColumn(oldRow.value, pkNames[k])
      modifies this`dataKeys
      ensures dataKeys == {Signature(pkNames, data)}
                          + (if IsUpdate(eventType) then {Signature(pkNames, oldRow.value)} else {})
    {
      var key := KeyOf(pkNames, data);
      dataKeys := {key};
      if IsUpdate(eventType) {
        key := KeyOf(pkNames, oldRow.value);
        dataKeys := dataKeys + {key};
      }
    }

    /** compareDataKeys: whether this record's signatures meet `compared`. */
    method CompareDataKeys(compared: set<string>) returns (r: bool)
      ensures r <==> dataKeys * compared != {}
    {
      var rest := dataKeys;
      while rest != {}
        invariant rest <= dataKeys
        invariant (dataKeys - rest) * compared == {}
        decreases |rest|
      {
        var key :| key in rest;
        if key in compared {
          assert key in dataKeys * compared;
          return true;
        }
        rest := rest - {key};
      }
      assert dataKeys - rest == dataKeys;
      return false;
    }

    /** addTypePriority: raise the priority by the statement kind's offset. */
    method AddTypePriority()
      modifies this`priority
      ensures priority == old(priority) + TypePriority(eventType)
    {
      if eventType == "INSERT" {
        priority := priority + 1;
      } else if eventType == "UPDATE" {
        priority := priority + 2;
      } else if eventType == "DELETE" {
        priority := priority + 3;
      }
    }
  }

  /** One string-building pass: a StringBuilder appending each key value's
      text and "+!#". */
  method KeyOf(pkNames: seq<string>, row: Row) returns (key: string)
    requires forall k :: 0 <= k < |pkNames| ==> HasColumn(row, pkNames[k])
    ensures key == Signature(pkNames, row)
  {
    key := "";
    var k := 0;
    while k < |pkNames|
      invariant 0 <= k <= |pkNames|
      invariant key == Signature(pkNames[..k], row)
    {
      assert pkNames[..k + 1][..k] == pkNames[..k];
      var value := Get(row, pkNames[k]).value.value;
      key := key + Text(value) + "+!#";
      k := k + 1;
    }
    assert pkNames[..k] == pkNames;
  }

  lemma {:induction false} ChangedNamesStep(data: Row, oldRow: Row, i: nat)
    requires i < |data|
    ensures ChangedNames(data[..i + 1], oldRow)
            == ChangedNames(data[..i], oldRow) + (if Changed(data[i], oldRow) then {data[i].name} else {})
  {
    assert data[..i + 1] == data[..i] + [data[i]];
  }

  /** Both change detections agree: the record's changed names are the
      names of the columns LoadService's update would set. */
  lemma {:induction false} ChangedNamesAreUpdatedColumns(data: Row, oldRow: Row)
    ensures ChangedNames(data, oldRow) == set c | c in ChangedColumns(data, oldRow) :: c.name
    ensures ChangedNames(data, oldRow) == {} <==> ChangedColumns(data, oldRow) == []
  {
    var cols := ChangedColumns(data, oldRow);
    if cols != [] {
      assert cols[0] in cols;
      assert cols[0].name in ChangedNames(data, oldRow);
    }
  }

  /** An update whose old row is its new row changes nothing. */
  lemma {:induction false} SameRowIsNoChange(data: Row)
    requires WellFormedRow(data)
    ensures ChangedNames(data, data) == {}
  {
    forall c | c in data
      ensures !Changed(c, data)
    {
      LoadFacts.GetOfMember(data, c);
      SameValueLaws(c.value, c.value, c.value);
    }
  }

  /** Rows whose key values print alike have one signature, whatever their
      other columns hold. */
  lemma {:induction false} SignatureOfKeysOnly(pkNames: seq<string>, a: Row, b: Row)
    requires forall k :: 0 <= k < |pkNames| ==>
               HasColumn(a, pkNames[k]) && HasColumn(b, pkNames[k])
               && Text(Get(a, pkNames[k]).value.value) == Text(Get(b, pkNames[k]).value.value)
    ensures Signature(pkNames, a) == Signature(pkNames, b)
  {
    if pkNames != [] {
      SignatureOfKeysOnly(pkNames[..|pkNames| - 1], a, b);
    }
  }

  /** Each key contributes its value's text and the three-character
      delimiter, so the signature's length is fixed by the key texts. */
  lemma {:induction false} SignatureLength(pkNames: seq<string>, row: Row)
    requires forall k :: 0 <= k < |pkNames| ==> HasColumn(row, pkNames[k])
    ensures |Signature(pkNames, row)| >= 3 * |pkNames|
    ensures pkNames != [] ==> Signature(pkNames, row)[|Signature(pkNames, row)| - 3..] == "+!#"
  {
    if pkNames != [] {
      SignatureLength(pkNames[..|pkNames| - 1], row);
    }
  }

  /** The constructor recognises an update in any letter case, but
      addTypePriority only in upper case. */
  lemma LowerCaseUpdate()
    ensures IsUpdate("update") && TypePriority("update") == 0
    ensures IsUpdate("UPDATE") && TypePriority("UPDATE") == 2
  {
    var s := "update";
    assert AsciiUpper(s[0]) == 'U' && AsciiUpper(s[1]) == 'P' && AsciiUpper(s[2]) == 'D';
    assert AsciiUpper(s[3]) == 'A' && AsciiUpper(s[4]) == 'T' && AsciiUpper(s[5]) == 'E';
  }
}
