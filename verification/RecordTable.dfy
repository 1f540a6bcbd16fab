/** A table of JSON records with mirrored columns: rows in insertion order, one row an id. */
module RecordTable {
  import opened Basics
  import J = JsonText

  /** A parsed record: an absent field is JavaScript's `undefined`. */
  type Record = map<string, J.Json>

  /** `None` stands for an explicit `undefined`. */
  type Patch = map<string, Option<J.Json>>

  function Field(record: Record, name: string): Option<J.Json> {
    if name in record then Some(record[name]) else None
  }

  predicate Truthy(value: Option<J.Json>) {
    match value
    case None => false
    case Some(Null) => false
    case Some(Bool(b)) => b
    case Some(Num(n)) => n != 0
    case Some(Str(s)) => s != ""
    case _ => true
  }

  /** JavaScript's falsy values, as far as a parsed record can hold them. */
  const FALSY: set<Option<J.Json>> :=
    {None, Some(J.Null), Some(J.Bool(false)), Some(J.Num(0)), Some(J.Str(""))}

  /** `record.channelId || ""`; channel ids are strings. */
  function ChannelOf(record: Record): string {
    match Field(record, "channelId")
    case Some(Str(s)) => s
    case _ => ""
  }

  predicate EnabledIn(record: Record) {
    Truthy(Field(record, "enabled"))
  }

  /** The schedule is on: its own field, not the column. */
  predicate IsOn(record: Record) {
    Field(record, "enabled") !in FALSY
  }

  /** `{ ...record, ...patch }`, stored: a field patched with undefined is dropped by the JSON text. */
  function Merge(record: Record, patch: Patch): (merged: Record)
    ensures forall name :: Field(merged, name) == if name in patch then patch[name] else Field(record, name)
  {
    map name | name in record.Keys + patch.Keys && (name in patch ==> patch[name].Some?)
      :: if name in patch then patch[name].value else record[name]
  }

  /** Every expected field has exactly the expected value. */
  predicate Matches(record: Record, expected: Patch) {
    forall name :: name in expected ==> Field(record, name) == expected[name]
  }

  datatype Row = Row(id: string, channel: string, enabled: bool, data: Record)

  /** The columns that an INSERT or a full UPDATE derives from the record. */
  function Mirrored(id: string, data: Record): Row {
    Row(id, ChannelOf(data), EnabledIn(data), data)
  }

  function Ids(rows: seq<Row>): set<string> {
    set i | 0 <= i < |rows| :: rows[i].id
  }

  ghost predicate UniqueIds(rows: seq<Row>) {
    forall i, j :: 0 <= i < j < |rows| ==> rows[i].id != rows[j].id
  }

  function Lookup(rows: seq<Row>, id: string): (row: Option<Row>)
    ensures row.Some? <==> id in Ids(rows)
    ensures row.Some? ==> row.value in rows && row.value.id == id
  {
    if rows == [] then None
    else if rows[0].id == id then Some(rows[0])
    else
      assert Ids(rows) == {rows[0].id} + Ids(rows[1..]) by {
        assert forall i :: 0 <= i < |rows[1..]| ==> rows[1..][i] == rows[i + 1];
        assert forall i :: 0 < i < |rows| ==> rows[i] == rows[1..][i - 1];
      }
      Lookup(rows[1..], id)
  }

  /** The row of that id replaced in place: its position is kept. */
  function Put(rows: seq<Row>, row: Row): (r: seq<Row>)
    ensures |r| == |rows|
    ensures forall i :: 0 <= i < |rows| ==> r[i] == if rows[i].id == row.id then row else rows[i]
  {
    seq(|rows|, i requires 0 <= i < |rows| => if rows[i].id == row.id then row else rows[i])
  }

  function Remove(rows: seq<Row>, id: string): (r: seq<Row>)
    ensures forall row :: row in r <==> row in rows && row.id != id
  {
    if rows == [] then []
    else (if rows[0].id == id then [] else [rows[0]]) + Remove(rows[1..], id)
  }

  lemma LookupUnique(rows: seq<Row>, row: Row)
    requires UniqueIds(rows) && row in rows
    ensures Lookup(rows, row.id) == Some(row)
  {
    var found := Lookup(rows, row.id);
    var i :| 0 <= i < |rows| && rows[i] == row;
    assert row.id in Ids(rows);
    var j :| 0 <= j < |rows| && rows[j] == found.value;
  }

  lemma PutKeeps(rows: seq<Row>, row: Row)
    requires UniqueIds(rows)
    ensures UniqueIds(Put(rows, row)) && Ids(Put(rows, row)) == Ids(rows)
    ensures forall id :: Lookup(Put(rows, row), id) == if id == row.id && id in Ids(rows) then Some(row) else Lookup(rows, id)
  {
    var after := Put(rows, row);
    forall i | 0 <= i < |rows| ensures after[i].id == rows[i].id {
    }
    forall id ensures Lookup(after, id) == if id == row.id && id in Ids(rows) then Some(row) else Lookup(rows, id) {
      if id in Ids(rows) {
        var i :| 0 <= i < |rows| && rows[i].id == id;
        LookupUnique(rows, rows[i]);
        LookupUnique(after, after[i]);
      }
    }
  }

  lemma {:induction false} RemoveKeeps(rows: seq<Row>, id: string)
    requires UniqueIds(rows)
    ensures UniqueIds(Remove(rows, id)) && Ids(Remove(rows, id)) == Ids(rows) - {id}
    ensures forall other :: Lookup(Remove(rows, id), other) == if other == id then None else Lookup(rows, other)
  {
    RemoveIsUnique(rows, id);
    var after := Remove(rows, id);
    forall other ensures other in Ids(after) <==> other in Ids(rows) && other != id {
      if other in Ids(rows) && other != id {
        var i :| 0 <= i < |rows| && rows[i].id == other;
        assert rows[i] in rows;
        assert rows[i] in after;
      }
      if other in Ids(after) {
        var i :| 0 <= i < |after| && after[i].id == other;
        assert after[i] in after;
        assert after[i] in rows;
      }
    }
    forall other ensures Lookup(after, other) == if other == id then None else Lookup(rows, other) {
      if other in Ids(after) {
        var row := Lookup(after, other).value;
        assert row in rows;
        LookupUnique(rows, row);
      }
    }
  }

  lemma {:induction false} RemoveIsUnique(rows: seq<Row>, id: string)
    requires UniqueIds(rows)
    ensures UniqueIds(Remove(rows, id))
  {
    if rows != [] {
      var rest := Remove(rows[1..], id);
      assert forall i :: 0 <= i < |rows[1..]| ==> rows[1..][i] == rows[i + 1];
      RemoveIsUnique(rows[1..], id);
      forall row | row in rest ensures row.id != rows[0].id {
        var i :| 0 <= i < |rows[1..]| && rows[1..][i] == row;
      }
      assert forall i :: 0 <= i < |rest| ==> rest[i] in rest;
    }
  }

  lemma AppendKeeps(rows: seq<Row>, row: Row)
    requires UniqueIds(rows) && row.id !in Ids(rows)
    ensures UniqueIds(rows + [row]) && Ids(rows + [row]) == Ids(rows) + {row.id}
    ensures forall id :: Lookup(rows + [row], id) == if id == row.id then Some(row) else Lookup(rows, id)
  {
    var after := rows + [row];
    assert forall i :: 0 <= i < |rows| ==> after[i] == rows[i] && rows[i].id in Ids(rows);
    assert after[|rows|] == row;
    forall id ensures id in Ids(after) <==> id in Ids(rows) + {row.id} {
      if id in Ids(rows) {
        var i :| 0 <= i < |rows| && rows[i].id == id;
        assert after[i].id == id;
      }
    }
    forall id ensures Lookup(after, id) == if id == row.id then Some(row) else Lookup(rows, id) {
      if id == row.id {
        LookupUnique(after, row);
      } else if id in Ids(rows) {
        LookupUnique(after, Lookup(rows, id).value);
      }
    }
  }

  // ---- Mirrored columns ---------------------------------------------------------------------------------

  /** Every row's columns are those of its record. */
  ghost predicate ColumnsMirror(rows: seq<Row>) {
    forall row :: row in rows ==> row == Mirrored(row.id, row.data)
  }

  /** The rows that satisfy a condition, in rowid order. */
  function Where(rows: seq<Row>, condition: Row -> bool): (r: seq<Row>)
    ensures forall row :: row in r <==> row in rows && condition(row)
  {
    if rows == [] then []
    else (if condition(rows[0]) then [rows[0]] else []) + Where(rows[1..], condition)
  }

  /** So a condition picks from two tables what it picks from one after the other: nothing is reordered. */
  lemma {:induction false} WhereAppends(front: seq<Row>, back: seq<Row>, condition: Row -> bool)
    ensures Where(front + back, condition) == Where(front, condition) + Where(back, condition)
  {
    if front == [] {
      assert front + back == back;
    } else {
      assert (front + back)[1..] == front[1..] + back;
      WhereAppends(front[1..], back, condition);
    }
  }

  lemma {:induction false} RemoveIsWhere(rows: seq<Row>, id: string)
    ensures Remove(rows, id) == Where(rows, (row: Row) => row.id != id)
  {
    if rows != [] {
      RemoveIsWhere(rows[1..], id);
    }
  }

  function DataOf(rows: seq<Row>): (r: seq<Record>)
    ensures |r| == |rows| && forall i :: 0 <= i < |rows| ==> r[i] == rows[i].data
  {
    seq(|rows|, i requires 0 <= i < |rows| => rows[i].data)
  }

  lemma {:induction false} WhereSame(rows: seq<Row>, p: Row -> bool, q: Row -> bool)
    requires forall row :: row in rows ==> p(row) == q(row)
    ensures Where(rows, p) == Where(rows, q)
  {
    if rows != [] {
      assert rows[0] in rows;
      WhereSame(rows[1..], p, q);
    }
  }

  function InChannel(channel: string): Row -> bool {
    (row: Row) => row.channel == channel
  }

  function EnabledInChannel(channel: string): Row -> bool {
    (row: Row) => row.channel == channel && row.enabled
  }

  /** The record names this channel; the empty channel stands for none. */
  predicate NamesChannel(record: Record, channel: string) {
    var named := Field(record, "channelId");
    if channel == "" then named.None? || !named.value.Str? || named.value.s == "" else named == Some(J.Str(channel))
  }

  function RecordInChannel(channel: string): Row -> bool {
    (row: Row) => NamesChannel(row.data, channel)
  }

  function RecordEnabledInChannel(channel: string): Row -> bool {
    (row: Row) => NamesChannel(row.data, channel) && IsOn(row.data)
  }

  /** A query on the columns finds what a scan of the records finds, in the same order. */
  lemma ColumnQueryIsScan(rows: seq<Row>, channel: string)
    requires ColumnsMirror(rows)
    ensures Where(rows, InChannel(channel)) == Where(rows, RecordInChannel(channel))
    ensures Where(rows, EnabledInChannel(channel)) == Where(rows, RecordEnabledInChannel(channel))
  {
    WhereSame(rows, InChannel(channel), RecordInChannel(channel));
    WhereSame(rows, EnabledInChannel(channel), RecordEnabledInChannel(channel));
  }
}
