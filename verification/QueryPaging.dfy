/** Following `nextCursor` from page to page, each page its own snapshot of a changing table. */
module QueryPaging {
  import opened Basics
  import opened QueryRequest
  import opened QuerySql
  import opened QueryCells
  import opened QueryMeaning
  import opened QuerySelect
  import J = JsonText
  import Decimal

  /** One call: the snapshot it saw, the server's answer, and the page it returned. */
  datatype Visit = Visit(table: Table, answer: seq<seq<Cell>>, page: Page)

  ghost predicate IsVisit(engine: Engine, metadata: seq<ColumnMeta>, select: Select, visit: Visit) {
    && Conforms(engine, metadata, visit.table)
    && Compile(metadata, select).Ok?
    && var compiled := Compile(metadata, select).value;
    && Bind(compiled.statement, compiled.parameters).Some?
    && Answers(engine, Bind(compiled.statement, compiled.parameters).value, visit.table, visit.answer)
    && KeysReadable(Pageable(metadata, select), visit.answer)
    && SelectPage(metadata, select, visit.answer) == Ok(visit.page)
  }

  /** The same request with the returned cursor. */
  function Resume(select: Select, cursor: string): Select {
    select.(after := Some(cursor))
  }

  /** Each later call resumes the one before it; the table may have changed arbitrarily in between. */
  ghost predicate IsRun(engine: Engine, metadata: seq<ColumnMeta>, select: Select, visits: seq<Visit>)
    decreases |visits|
  {
    && visits != []
    && IsVisit(engine, metadata, select, visits[0])
    && (|visits| > 1 ==>
        && visits[0].page.nextCursor.Some?
        && IsRun(engine, metadata, Resume(select, visits[0].page.nextCursor.value), visits[1..]))
  }

  // ---- One page ------------------------------------------------------------------------------------

  function KeyOf(select: Select, row: Row): Cell
    requires select.order.Some?
  {
    Get(row, select.order.value.column)
  }

  /** A row's position in reading direction. */
  function At(engine: Engine, select: Select, row: Row): real
    requires select.order.Some?
  {
    Directed(engine, select.order.value.ascending, KeyOf(select, row))
  }

  ghost predicate Ascending(engine: Engine, select: Select, rows: seq<Row>)
    requires select.order.Some?
  {
    forall i, j :: 0 <= i < j < |rows| ==> At(engine, select, rows[i]) < At(engine, select, rows[j])
  }

  /** What a reader of the response gets back for a row of the page. */
  function ReadRow(row: seq<J.Json>): (r: seq<Option<Cell>>)
    ensures |r| == |row|
    ensures forall i :: 0 <= i < |row| ==> r[i] == ReadCell(row[i])
  {
    seq(|row|, i requires 0 <= i < |row| => ReadCell(row[i]))
  }

  function ReadRows(rows: seq<seq<J.Json>>): (r: seq<seq<Option<Cell>>>)
    ensures |r| == |rows|
    ensures forall i :: 0 <= i < |rows| ==> r[i] == ReadRow(rows[i])
  {
    seq(|rows|, i requires 0 <= i < |rows| => ReadRow(rows[i]))
  }

  /** The requested cells of a stored row, each cut to the length a reader may see. */
  function FullRow(select: Select, row: Row): (r: seq<Option<Cell>>)
    ensures |r| == |select.columns|
    ensures forall i :: 0 <= i < |r| ==> r[i] == Some(Shown(Get(row, select.columns[i])))
  {
    seq(|select.columns|, i requires 0 <= i < |select.columns| => Some(Shown(Get(row, select.columns[i]))))
  }

  function FullRows(select: Select, rows: seq<Row>): (r: seq<seq<Option<Cell>>>)
    ensures |r| == |rows|
    ensures forall i :: 0 <= i < |rows| ==> r[i] == FullRow(select, rows[i])
  {
    seq(|rows|, i requires 0 <= i < |rows| => FullRow(select, rows[i]))
  }

  /** How many of the requested cells of a stored row exceed the cell limit. */
  function ClippedColumns(columns: seq<string>, row: Row): nat {
    if columns == [] then 0
    else (if TooLong(Get(row, columns[|columns| - 1])) then 1 else 0) + ClippedColumns(columns[..|columns| - 1], row)
  }

  function ClippedTotal(select: Select, rows: seq<Row>): nat {
    if rows == [] then 0
    else ClippedTotal(select, rows[..|rows| - 1]) + ClippedColumns(select.columns, rows[|rows| - 1])
  }

  function Keys(select: Select, rows: seq<Row>): (r: seq<Cell>)
    requires select.order.Some?
    ensures |r| == |rows|
    ensures forall i :: 0 <= i < |rows| ==> r[i] == KeyOf(select, rows[i])
  {
    seq(|rows|, i requires 0 <= i < |rows| => KeyOf(select, rows[i]))
  }

  /** The keys of the rows a visit returned: the trailing cell of each answer row it kept. */
  function ReturnedKeys(visit: Visit): (r: seq<Cell>) {
    var raws := Take(visit.answer, |visit.page.rows|);
    seq(|raws|, i requires 0 <= i < |raws| => if raws[i] == [] then Null else raws[i][|raws[i]| - 1])
  }

  /** What a page says about the snapshot it was read from: `chosen` is everything still wanted there,
      in order; the page reads as its prefix, cell by cell as stored; and it is marked truncated exactly
      when something is left. */
  ghost predicate Shows(engine: Engine, select: Select, cursor: Option<Cell>, visit: Visit, chosen: seq<Row>) {
    var page := visit.page;
    && select.order.Some?
    && (forall row :: row in visit.table ==> !KeyOf(select, row).Null?)
    && (forall row :: row in chosen <==> row in visit.table && Wanted(engine, select, cursor)(row))
    && Ascending(engine, select, chosen)
    && |page.rows| <= |chosen|
    && ReturnedKeys(visit) == Keys(select, chosen[..|page.rows|])
    && ReadRows(page.rows) == FullRows(select, chosen[..|page.rows|])
    && page.truncatedCells == ClippedTotal(select, chosen[..|page.rows|])
    && (page.truncated <==> |page.rows| < |chosen|)
    && (page.nextCursor.Some? <==> page.truncated && page.rows != [])
    && (page.nextCursor.Some? ==> KeyText(KeyOf(select, chosen[|page.rows| - 1])) == Ok(page.nextCursor.value))
  }

  lemma KeysDiffer(engine: Engine, dataType: string, column: string, table: Table, i: nat, j: nat)
    requires Keyed(engine, dataType, column, table) && i < |table| && j < |table| && i != j
    ensures engine.rank(Get(table[i], column)) != engine.rank(Get(table[j], column))
  {
    assert Differ(engine, table[if i < j then i else j], table[if i < j then j else i], column);
  }

  lemma {:induction false} KeepKeyed(engine: Engine, dataType: string, column: string, table: Table, wanted: Row -> bool)
    requires Keyed(engine, dataType, column, table)
    ensures Keyed(engine, dataType, column, Keep(table, wanted))
  {
    if table != [] {
      assert forall i :: 0 <= i < |table[1..]| ==> table[1..][i] == table[i + 1];
      KeepKeyed(engine, dataType, column, table[1..], wanted);
      var kept := Keep(table, wanted);
      var rest := Keep(table[1..], wanted);
      if wanted(table[0]) {
        forall i, j | 0 <= i < j < |kept| ensures Differ(engine, kept[i], kept[j], column) {
          if i == 0 {
            assert kept[j] == rest[j - 1] && rest[j - 1] in table[1..];
            var k :| 0 <= k < |table[1..]| && table[1..][k] == kept[j];
            assert Differ(engine, table[0], table[k + 1], column);
          } else {
            assert Differ(engine, rest[i - 1], rest[j - 1], column);
          }
        }
      }
    }
  }

  lemma {:induction false} CountsAtMostOne(engine: Engine, dataType: string, column: string, table: Table, row: Row)
    requires Keyed(engine, dataType, column, table)
    ensures multiset(table)[row] <= 1
  {
    if table != [] {
      assert table == [table[0]] + table[1..];
      assert forall i :: 0 <= i < |table[1..]| ==> table[1..][i] == table[i + 1];
      CountsAtMostOne(engine, dataType, column, table[1..], row);
      forall k | 0 <= k < |table[1..]| ensures table[1..][k] != table[0] {
        KeysDiffer(engine, dataType, column, table, 0, k + 1);
      }
    }
  }

  /** A unique key leaves no ties: the answer's order is strict. */
  lemma ArrangedIsStrict(engine: Engine, dataType: string, select: Select, rows: Table, chosen: seq<Row>)
    requires select.order.Some?
    requires Keyed(engine, dataType, select.order.value.column, rows)
    requires Arranged(engine, select.order, rows, chosen)
    ensures Ascending(engine, select, chosen)
  {
    var column := select.order.value.column;
    forall i, j | 0 <= i < j < |chosen| ensures At(engine, select, chosen[i]) < At(engine, select, chosen[j]) {
      if At(engine, select, chosen[i]) == At(engine, select, chosen[j]) {
        assert chosen[i] in multiset(chosen) && chosen[j] in multiset(chosen);
        var a :| 0 <= a < |rows| && rows[a] == chosen[i];
        var b :| 0 <= b < |rows| && rows[b] == chosen[j];
        CountsAtMostOne(engine, dataType, column, rows, chosen[i]);
        if a == b {
          TwiceInSequence(chosen, i, j);
        } else {
          KeysDiffer(engine, dataType, column, rows, a, b);
        }
      }
    }
  }

  lemma TwiceInSequence<T>(s: seq<T>, i: nat, j: nat)
    requires i < j < |s| && s[i] == s[j]
    ensures multiset(s)[s[i]] >= 2
  {
    assert s == s[..j] + [s[j]] + s[j + 1..];
    assert s[i] in s[..j];
  }

  lemma ColumnNormalizes(metadata: seq<ColumnMeta>, select: Select, row: Row)
    requires Known(metadata, select) && Pageable(metadata, select)
    ensures ReadRow(NormalizeRow(RowCells(true, RawRow(metadata, select, row)))) == FullRow(select, row)
    ensures RawRow(metadata, select, row)[|select.columns|] == KeyOf(select, row)
  {
    forall i | 0 <= i < |select.columns|
      ensures ReadRow(NormalizeRow(RowCells(true, RawRow(metadata, select, row))))[i] == FullRow(select, row)[i]
    {
      ClipThenNormalize(TypeOf(metadata, select.columns[i]).value, Get(row, select.columns[i]));
      CellIsShown(Get(row, select.columns[i]));
    }
  }

  lemma AnswerRows(engine: Engine, metadata: seq<ColumnMeta>, select: Select, visit: Visit) returns (chosen: seq<Row>)
    requires IsVisit(engine, metadata, select, visit)
    ensures Reads(engine, metadata, select, visit.table, chosen)
    ensures visit.answer == RawRows(metadata, select, Take(chosen, select.limit + 1))
  {
    CompilePreservesMeaning(engine, metadata, select, visit.table, visit.answer);
    chosen :| Reads(engine, metadata, select, visit.table, chosen)
           && visit.answer == RawRows(metadata, select, Take(chosen, select.limit + 1));
  }

  lemma ReadsAscending(engine: Engine, metadata: seq<ColumnMeta>, select: Select, table: Table, chosen: seq<Row>)
    requires MetadataOk(metadata) && Pageable(metadata, select) && Conforms(engine, metadata, table)
    requires Reads(engine, metadata, select, table, chosen)
    ensures Ascending(engine, select, chosen)
    ensures forall row :: row in table ==> !KeyOf(select, row).Null?
    ensures forall row :: row in chosen <==> row in table && Wanted(engine, select, CursorKey(metadata, select))(row)
  {
    var column := select.order.value.column;
    KeysetIsKey(engine, metadata, column, table);
    var dataType := TypeOf(metadata, column).value;
    var kept := Keep(table, Wanted(engine, select, CursorKey(metadata, select)));
    KeepKeyed(engine, dataType, column, table, Wanted(engine, select, CursorKey(metadata, select)));
    ArrangedIsStrict(engine, dataType, select, kept, chosen);
    forall row ensures row in chosen <==> row in kept {
      assert row in chosen <==> row in multiset(chosen);
      assert row in kept <==> row in multiset(kept);
    }
  }

  /** Every legal page shows its snapshot in this sense. */
  lemma PageShows(engine: Engine, metadata: seq<ColumnMeta>, select: Select, visit: Visit) returns (chosen: seq<Row>)
    requires MetadataOk(metadata) && Pageable(metadata, select)
    requires IsVisit(engine, metadata, select, visit)
    ensures Reads(engine, metadata, select, visit.table, chosen)
    ensures Shows(engine, select, CursorKey(metadata, select), visit, chosen)
  {
    chosen := AnswerRows(engine, metadata, select, visit);
    ReadsAscending(engine, metadata, select, visit.table, chosen);
    PageIsPrefix(metadata, select, chosen, visit.answer, visit.page);
    KeysAreTrailing(metadata, select, chosen, visit);
  }

  lemma {:induction false} ClippedColumnsMatch(metadata: seq<ColumnMeta>, columns: seq<string>, row: Row)
    requires forall c :: c in columns ==> TypeOf(metadata, c).Some?
    ensures ClippedCells(RawCells(metadata, columns, row)) == ClippedColumns(columns, row)
  {
    if columns != [] {
      var front, last := columns[..|columns| - 1], columns[|columns| - 1];
      assert RawCells(metadata, columns, row)[..|front|] == RawCells(metadata, front, row);
      ClipThenNormalize(TypeOf(metadata, last).value, Get(row, last));
      CellIsShown(Get(row, last));
      ClippedColumnsMatch(metadata, front, row);
    }
  }

  lemma {:induction false} ClippedRowsMatch(metadata: seq<ColumnMeta>, select: Select, rows: seq<Row>)
    requires Known(metadata, select) && Pageable(metadata, select)
    ensures KeysReadable(true, RawRows(metadata, select, rows))
    ensures ClippedIn(true, RawRows(metadata, select, rows)) == ClippedTotal(select, rows)
  {
    if rows != [] {
      var front, last := rows[..|rows| - 1], rows[|rows| - 1];
      assert RawRows(metadata, select, rows)[..|front|] == RawRows(metadata, select, front);
      ClippedRowsMatch(metadata, select, front);
      ClippedColumnsMatch(metadata, select.columns, last);
      assert RowCells(true, RawRow(metadata, select, last)) == RawCells(metadata, select.columns, last);
    }
  }

  lemma KeysAreTrailing(metadata: seq<ColumnMeta>, select: Select, chosen: seq<Row>, visit: Visit)
    requires Known(metadata, select) && Pageable(metadata, select)
    requires visit.answer == RawRows(metadata, select, Take(chosen, select.limit + 1))
    requires |visit.page.rows| <= |visit.answer|
    ensures ReturnedKeys(visit) == Keys(select, chosen[..|visit.page.rows|])
  {
    var n := |visit.page.rows|;
    forall i | 0 <= i < n ensures ReturnedKeys(visit)[i] == KeyOf(select, chosen[i]) {
      assert visit.answer[i] == RawRow(metadata, select, chosen[i]);
      ColumnNormalizes(metadata, select, chosen[i]);
    }
  }

  lemma PageIsPrefix(metadata: seq<ColumnMeta>, select: Select, chosen: seq<Row>, answer: seq<seq<Cell>>, page: Page)
    requires Known(metadata, select) && Pageable(metadata, select)
    requires answer == RawRows(metadata, select, Take(chosen, select.limit + 1))
    requires KeysReadable(true, answer) && SelectPage(metadata, select, answer) == Ok(page)
    ensures |page.rows| <= |chosen| && |page.rows| <= |answer|
    ensures ReadRows(page.rows) == FullRows(select, chosen[..|page.rows|])
    ensures page.truncatedCells == ClippedTotal(select, chosen[..|page.rows|])
    ensures page.truncated <==> |page.rows| < |chosen|
    ensures page.nextCursor.Some? <==> page.truncated && page.rows != []
    ensures page.nextCursor.Some? ==> KeyText(KeyOf(select, chosen[|page.rows| - 1])) == Ok(page.nextCursor.value)
  {
    hide SelectPage, RawRow, FullRow, ReadRow, ClippedTotal, ClippedIn, NormalizeCell;
    var n := KeptRows(metadata, select, answer, page);
    RawPrefix(metadata, select, chosen, select.limit, n);
    ClippedRowsMatch(metadata, select, chosen[..n]);
    RowsNormalize(metadata, select, chosen[..n], Take(answer, select.limit)[..n], page.rows);
    if n > 0 {
      ColumnNormalizes(metadata, select, chosen[n - 1]);
    }
  }

  lemma RowsNormalize(metadata: seq<ColumnMeta>, select: Select, rows: seq<Row>, raws: seq<seq<Cell>>, page: seq<seq<J.Json>>)
    requires Known(metadata, select) && Pageable(metadata, select)
    requires raws == RawRows(metadata, select, rows) && |page| == |rows|
    requires forall i :: 0 <= i < |raws| ==> page[i] == NormalizeRow(RowCells(true, raws[i]))
    ensures ReadRows(page) == FullRows(select, rows)
  {
    forall i | 0 <= i < |rows| ensures ReadRow(page[i]) == FullRow(select, rows[i]) {
      ColumnNormalizes(metadata, select, rows[i]);
    }
  }

  lemma RawPrefix(metadata: seq<ColumnMeta>, select: Select, chosen: seq<Row>, limit: nat, n: nat)
    requires Known(metadata, select)
    requires n <= |chosen| && n <= limit
    ensures Take(RawRows(metadata, select, Take(chosen, limit + 1)), limit)[..n] == RawRows(metadata, select, chosen[..n])
    ensures n > 0 ==> Take(RawRows(metadata, select, Take(chosen, limit + 1)), limit)[n - 1] == RawRow(metadata, select, chosen[n - 1])
  {
    var raws := Take(RawRows(metadata, select, Take(chosen, limit + 1)), limit);
    forall i | 0 <= i < n ensures raws[..n][i] == RawRows(metadata, select, chosen[..n])[i] {
      assert raws[i] == RawRow(metadata, select, chosen[i]);
    }
  }

  /** The page as filled, in terms of the answer. */
  lemma FilledPage(metadata: seq<ColumnMeta>, select: Select, answer: seq<seq<Cell>>, page: Page) returns (n: nat)
    requires Pageable(metadata, select) && |answer| <= select.limit + 1
    requires KeysReadable(true, answer) && SelectPage(metadata, select, answer) == Ok(page)
    ensures var raws, overflow := Take(answer, select.limit), |answer| > select.limit;
      && n <= |raws| && page == PageOf(true, overflow, raws, n)
      && (n > 0 ==> RowKey(true, raws[n - 1]).Ok? && LastKey(true, raws, n) == RowKey(true, raws[n - 1]).value)
  {
    hide CandidateSize, PageOf, LastKey, RowKey, Verdicts;
    var raws, overflow := Take(answer, select.limit), |answer| > select.limit;
    assert Take(answer, select.limit + 1) == answer;
    var verdicts := Verdicts(select, true, overflow, raws);
    n := Fill(verdicts, 0).value;
    FillExact(verdicts, 0, n);
    if n > 0 {
      assert verdicts[n - 1] == Ok(true);
      VerdictStep(select, true, overflow, raws, n - 1);
    }
  }

  lemma KeyOfRow(raw: seq<Cell>)
    requires |raw| > 0 && RowKey(true, raw).Ok?
    ensures RowKey(true, raw).value.Some? && KeyText(raw[|raw| - 1]) == Ok(RowKey(true, raw).value.value)
  {
  }

  /** The page in terms of the answer: its kept rows, and the key of the last of them. */
  lemma KeptRows(metadata: seq<ColumnMeta>, select: Select, answer: seq<seq<Cell>>, page: Page) returns (n: nat)
    requires Pageable(metadata, select) && |answer| <= select.limit + 1
    requires KeysReadable(true, answer) && SelectPage(metadata, select, answer) == Ok(page)
    ensures n == |page.rows| <= |Take(answer, select.limit)|
    ensures forall i :: 0 <= i < n ==> page.rows[i] == NormalizeRow(RowCells(true, Take(answer, select.limit)[i]))
    ensures page.truncatedCells == ClippedIn(true, Take(answer, select.limit)[..n])
    ensures page.truncated <==> n < |answer|
    ensures page.nextCursor.Some? <==> page.truncated && n > 0
    ensures page.nextCursor.Some? ==>
      var raw := Take(answer, select.limit)[n - 1];
      KeyText(raw[|raw| - 1]) == Ok(page.nextCursor.value)
  {
    hide SelectPage, PageOf, RowKey, KeyText, NormalizeRow, RowCells, ClippedIn, LastKey;
    n := FilledPage(metadata, select, answer, page);
    PageOfFields(|answer| > select.limit, Take(answer, select.limit), n);
    if n > 0 {
      KeyOfRow(Take(answer, select.limit)[n - 1]);
    }
  }

  lemma PageOfFields(overflow: bool, raws: seq<seq<Cell>>, n: nat)
    requires n <= |raws| && KeysReadable(true, raws)
    ensures var page := PageOf(true, overflow, raws, n);
      && |page.rows| == n
      && page.truncatedCells == ClippedIn(true, raws[..n])
      && (page.truncated <==> overflow || n < |raws|)
      && page.nextCursor == (if page.truncated then LastKey(true, raws, n) else None)
      && (n == 0 ==> page.nextCursor == None)
      && (forall i :: 0 <= i < n ==> page.rows[i] == NormalizeRow(RowCells(true, raws[i])))
  {
  }

  // ---- The cursor ------------------------------------------------------------------------------------

  /** Every emitted cursor is accepted again and stands for the key it was made from. */
  lemma CursorRoundTrip(dataType: string, key: Cell, text: string)
    requires KeyText(key) == Ok(text)
    requires FitsType(dataType, key) && (dataType in INTEGER_TYPES || dataType in STRING_KEY_TYPES)
    ensures IsCursor(J.Str(text)) && CursorText(J.Str(text)) == text
    ensures CursorParam(dataType, text) == Ok(key)
  {
    if key.Int? {
      Decimal.SixtyFourBits();
      Decimal.IntRoundTrip(key.i);
    }
  }

  /** Resuming: the next request is valid, is what its JSON normalises to, and asks for the rows
      strictly after the last one returned. */
  lemma ResumeAfterLast(engine: Engine, metadata: seq<ColumnMeta>, select: Select, visit: Visit, chosen: seq<Row>)
    requires MetadataOk(metadata) && Pageable(metadata, select) && Compile(metadata, select).Ok?
    requires Conforms(engine, metadata, visit.table)
    requires Shows(engine, select, CursorKey(metadata, select), visit, chosen)
    requires visit.page.nextCursor.Some?
    ensures var next := Resume(select, visit.page.nextCursor.value);
      && Compile(metadata, next).Ok?
      && CursorKey(metadata, next) == Some(KeyOf(select, chosen[|visit.page.rows| - 1]))
      && (ValidSelect(select) ==> ValidSelect(next) && Normalize(RenderSelect(next)) == Ok(SelectRows(next)))
  {
    hide Conforms, Keyed, Ascending, FullRow, Wanted, RenderSelect, Normalize, MetadataOk, CursorParam, KeyText;
    var next := Resume(select, visit.page.nextCursor.value);
    var column := select.order.value.column;
    KeysetIsKey(engine, metadata, column, visit.table);
    var last := chosen[|visit.page.rows| - 1];
    assert last in chosen;
    KeyedRow(engine, TypeOf(metadata, column).value, column, visit.table, last);
    CursorRoundTrip(TypeOf(metadata, column).value, KeyOf(select, last), visit.page.nextCursor.value);
    CursorCompiles(metadata, select, visit.page.nextCursor.value, KeyOf(select, last));
    if ValidSelect(select) {
      StaysValid(select, visit.page.nextCursor.value);
      SelectRoundTrip(next);
    }
  }

  lemma KeyedRow(engine: Engine, dataType: string, column: string, table: Table, row: Row)
    requires Keyed(engine, dataType, column, table) && row in table
    ensures FitsType(dataType, Get(row, column)) && (dataType in INTEGER_TYPES || dataType in STRING_KEY_TYPES)
  {
  }

  lemma CursorCompiles(metadata: seq<ColumnMeta>, select: Select, text: string, key: Cell)
    requires Pageable(metadata, select) && Compile(metadata, select).Ok?
    requires TypeOf(metadata, select.order.value.column).Some?
    requires CursorParam(TypeOf(metadata, select.order.value.column).value, text) == Ok(key)
    ensures Compile(metadata, Resume(select, text)).Ok? && CursorKey(metadata, Resume(select, text)) == Some(key)
  {
    hide CursorParam, KeysetColumn, TypeOf;
  }

  lemma StaysValid(select: Select, text: string)
    requires ValidSelect(select) && select.order.Some? && IsCursor(J.Str(text))
    ensures ValidSelect(Resume(select, text))
  {
  }

  // ---- A run as a chain of pages, each resuming after a key -----------------------------------------------

  ghost predicate IsLeg(engine: Engine, select: Select, cursor: Option<Cell>, visits: seq<Visit>, chosen: seq<Row>)
    decreases |visits|, 0
  {
    && visits != []
    && Shows(engine, select, cursor, visits[0], chosen)
    && (|visits| > 1 ==>
        && visits[0].page.nextCursor.Some?
        && IsChain(engine, select, Some(KeyOf(select, chosen[|visits[0].page.rows| - 1])), visits[1..]))
  }

  ghost predicate IsChain(engine: Engine, select: Select, cursor: Option<Cell>, visits: seq<Visit>)
    decreases |visits|, 1
  {
    exists chosen :: IsLeg(engine, select, cursor, visits, chosen)
  }

  /** Only order and filters matter to a chain; the cursor text does not. */
  lemma {:induction false} ChainIgnoresAfter(engine: Engine, select: Select, after: string, cursor: Option<Cell>, visits: seq<Visit>)
    requires IsChain(engine, Resume(select, after), cursor, visits)
    ensures IsChain(engine, select, cursor, visits)
    decreases |visits|
  {
    var next := Resume(select, after);
    var chosen :| IsLeg(engine, next, cursor, visits, chosen);
    ShowsIgnoresAfter(engine, select, after, cursor, visits[0], chosen);
    if |visits| > 1 {
      ChainIgnoresAfter(engine, select, after, Some(KeyOf(select, chosen[|visits[0].page.rows| - 1])), visits[1..]);
    }
    assert IsLeg(engine, select, cursor, visits, chosen);
  }

  lemma {:induction false} ClippedIgnoresAfter(select: Select, after: string, rows: seq<Row>)
    ensures ClippedTotal(Resume(select, after), rows) == ClippedTotal(select, rows)
  {
    if rows != [] {
      ClippedIgnoresAfter(select, after, rows[..|rows| - 1]);
    }
  }

  lemma ShowsIgnoresAfter(engine: Engine, select: Select, after: string, cursor: Option<Cell>, visit: Visit, chosen: seq<Row>)
    requires Shows(engine, Resume(select, after), cursor, visit, chosen)
    ensures Shows(engine, select, cursor, visit, chosen)
  {
    var next := Resume(select, after);
    forall row ensures Wanted(engine, next, cursor)(row) == Wanted(engine, select, cursor)(row) {
    }
    var kept := chosen[..|visit.page.rows|];
    assert Keys(next, kept) == Keys(select, kept);
    forall i | 0 <= i < |kept| ensures FullRows(next, kept)[i] == FullRows(select, kept)[i] {
      assert FullRow(next, kept[i]) == FullRow(select, kept[i]);
    }
    assert FullRows(next, kept) == FullRows(select, kept);
    ClippedIgnoresAfter(select, after, kept);
    assert Ascending(engine, select, chosen) by {
      assert forall row :: At(engine, next, row) == At(engine, select, row);
    }
  }

  lemma {:induction false} RunIsChain(engine: Engine, metadata: seq<ColumnMeta>, select: Select, visits: seq<Visit>)
    requires MetadataOk(metadata) && Pageable(metadata, select)
    requires IsRun(engine, metadata, select, visits)
    ensures IsChain(engine, select, CursorKey(metadata, select), visits)
    decreases |visits|
  {
    var chosen := PageShows(engine, metadata, select, visits[0]);
    if |visits| > 1 {
      var after := visits[0].page.nextCursor.value;
      ResumeAfterLast(engine, metadata, select, visits[0], chosen);
      RunIsChain(engine, metadata, Resume(select, after), visits[1..]);
      ChainIgnoresAfter(engine, select, after, CursorKey(metadata, Resume(select, after)), visits[1..]);
    }
    assert IsLeg(engine, select, CursorKey(metadata, select), visits, chosen);
  }

  // ---- Never twice -------------------------------------------------------------------------------------

  function Rank(engine: Engine, select: Select, key: Cell): real
    requires select.order.Some?
  {
    Directed(engine, select.order.value.ascending, key)
  }

  ghost predicate Increasing(engine: Engine, select: Select, keys: seq<Cell>)
    requires select.order.Some?
  {
    forall i, j :: 0 <= i < j < |keys| ==> Rank(engine, select, keys[i]) < Rank(engine, select, keys[j])
  }

  ghost predicate AllAfter(engine: Engine, select: Select, cursor: Option<Cell>, keys: seq<Cell>)
    requires select.order.Some?
  {
    cursor.Some? ==> forall i :: 0 <= i < |keys| ==> Rank(engine, select, keys[i]) > Rank(engine, select, cursor.value)
  }

  function AllKeys(visits: seq<Visit>): seq<Cell> {
    if visits == [] then [] else ReturnedKeys(visits[0]) + AllKeys(visits[1..])
  }

  lemma IncreasingAppend(engine: Engine, select: Select, front: seq<Cell>, back: seq<Cell>)
    requires select.order.Some?
    requires Increasing(engine, select, front) && Increasing(engine, select, back)
    requires front != [] ==> AllAfter(engine, select, Some(front[|front| - 1]), back)
    ensures Increasing(engine, select, front + back)
  {
    var all := front + back;
    forall i, j | 0 <= i < j < |all| ensures Rank(engine, select, all[i]) < Rank(engine, select, all[j]) {
      if i < |front| <= j {
        assert Rank(engine, select, front[i]) <= Rank(engine, select, front[|front| - 1]);
        assert all[j] == back[j - |front|];
      }
    }
  }

  lemma PageKeysAfterCursor(engine: Engine, select: Select, cursor: Option<Cell>, visit: Visit, chosen: seq<Row>)
    requires Shows(engine, select, cursor, visit, chosen)
    ensures Increasing(engine, select, ReturnedKeys(visit))
    ensures AllAfter(engine, select, cursor, ReturnedKeys(visit))
  {
    var keys := ReturnedKeys(visit);
    forall i | 0 <= i < |keys|
      ensures cursor.Some? ==> Rank(engine, select, keys[i]) > Rank(engine, select, cursor.value)
    {
      assert chosen[i] in chosen;
    }
    assert forall i, j :: 0 <= i < j < |keys| ==> At(engine, select, chosen[i]) < At(engine, select, chosen[j]);
  }

  lemma {:induction false} ChainIncreases(engine: Engine, select: Select, cursor: Option<Cell>, visits: seq<Visit>)
    requires select.order.Some? && IsChain(engine, select, cursor, visits)
    ensures Increasing(engine, select, AllKeys(visits))
    ensures AllAfter(engine, select, cursor, AllKeys(visits))
    decreases |visits|
  {
    var chosen :| IsLeg(engine, select, cursor, visits, chosen);
    PageKeysAfterCursor(engine, select, cursor, visits[0], chosen);
    var keys := ReturnedKeys(visits[0]);
    if |visits| > 1 {
      ChainIncreases(engine, select, Some(keys[|keys| - 1]), visits[1..]);
      var later := AllKeys(visits[1..]);
      IncreasingAppend(engine, select, keys, later);
      if cursor.Some? {
        assert Rank(engine, select, keys[|keys| - 1]) > Rank(engine, select, cursor.value);
        assert AllAfter(engine, select, cursor, later);
      }
    } else {
      assert AllKeys(visits[1..]) == [] && AllKeys(visits) == keys;
    }
  }

  /** However the table changes between pages, the keys returned along a run are strictly increasing in
      reading direction, so no key is ever returned twice; and all lie after the first request's cursor. */
  lemma NeverTwice(engine: Engine, metadata: seq<ColumnMeta>, select: Select, visits: seq<Visit>)
    requires MetadataOk(metadata) && Pageable(metadata, select)
    requires IsRun(engine, metadata, select, visits)
    ensures Increasing(engine, select, AllKeys(visits))
    ensures AllAfter(engine, select, CursorKey(metadata, select), AllKeys(visits))
    ensures forall i, j :: 0 <= i < j < |AllKeys(visits)| ==> AllKeys(visits)[i] != AllKeys(visits)[j]
    ensures forall i, j :: 0 <= i < j < |AllKeys(visits)| ==>
      var a, b := engine.rank(AllKeys(visits)[i]), engine.rank(AllKeys(visits)[j]);
      if select.order.value.ascending then a < b else a > b
  {
    RunIsChain(engine, metadata, select, visits);
    ChainIncreases(engine, select, CursorKey(metadata, select), visits);
    var keys := AllKeys(visits);
    assert forall i, j :: 0 <= i < j < |keys| ==> Rank(engine, select, keys[i]) < Rank(engine, select, keys[j]);
  }

  // ---- Nothing missed -----------------------------------------------------------------------------------

  /** A matching row with this key is there. */
  ghost predicate Present(engine: Engine, select: Select, table: Table, key: Cell)
    requires select.order.Some?
  {
    exists row :: row in table && MatchesFilters(engine, select.filters, row) && KeyOf(select, row) == key
  }

  /** In visit `i`, row `j` reads as the stored row with this key, as it was in that visit's snapshot. */
  ghost predicate ReturnedAt(engine: Engine, select: Select, visits: seq<Visit>, key: Cell, i: nat, j: nat)
    requires select.order.Some?
  {
    && i < |visits| && j < |visits[i].page.rows|
    && exists row :: row in visits[i].table && KeyOf(select, row) == key
         && MatchesFilters(engine, select.filters, row)
         && ReadRow(visits[i].page.rows[j]) == FullRow(select, row)
  }

  /** A key that is present and ahead of the cursor is among the rows still to be read. */
  lemma PresentIsChosen(engine: Engine, select: Select, cursor: Option<Cell>, visit: Visit, chosen: seq<Row>, key: Cell)
    returns (p: nat)
    requires Shows(engine, select, cursor, visit, chosen)
    requires Present(engine, select, visit.table, key)
    requires AllAfter(engine, select, cursor, [key])
    ensures p < |chosen| && KeyOf(select, chosen[p]) == key
    ensures p < |visit.page.rows| ==> ReturnedAt(engine, select, [visit], key, 0, p) && key in ReturnedKeys(visit)
  {
    var row :| row in visit.table && MatchesFilters(engine, select.filters, row) && KeyOf(select, row) == key;
    assert Rank(engine, select, [key][0]) == At(engine, select, row);
    assert row in chosen;
    p :| 0 <= p < |chosen| && chosen[p] == row;
    if p < |visit.page.rows| {
      assert ReturnedKeys(visit)[p] == key;
      assert ReadRows(visit.page.rows)[p] == FullRow(select, row);
    }
  }

  lemma {:induction false} ChainMissesNothing(engine: Engine, select: Select, cursor: Option<Cell>, visits: seq<Visit>, key: Cell)
    returns (i: nat, j: nat)
    requires visits != [] && select.order.Some? && IsChain(engine, select, cursor, visits)
    requires !visits[|visits| - 1].page.truncated
    requires forall v :: 0 <= v < |visits| ==> Present(engine, select, visits[v].table, key)
    requires AllAfter(engine, select, cursor, [key])
    ensures ReturnedAt(engine, select, visits, key, i, j)
    ensures key in AllKeys(visits)
    decreases |visits|
  {
    hide FullRow, MatchesFilters, Wanted, Present, ClippedTotal, KeyText, FullRows, ReturnedKeys;
    var chosen :| IsLeg(engine, select, cursor, visits, chosen);
    var p := PresentIsChosen(engine, select, cursor, visits[0], chosen, key);
    var kept := |visits[0].page.rows|;
    if p < kept {
      i, j := 0, p;
      assert ReturnedAt(engine, select, [visits[0]], key, 0, p);
    } else {
      var last := KeyOf(select, chosen[kept - 1]);
      assert At(engine, select, chosen[kept - 1]) < At(engine, select, chosen[p]);
      assert AllAfter(engine, select, Some(last), [key]);
      i, j := ChainMissesNothing(engine, select, Some(last), visits[1..], key);
      i := i + 1;
    }
  }

  /** A run that ends untruncated has returned every key that was there, and matched, in every snapshot
      (and lies after the first request's cursor, if it had one). */
  lemma NothingMissed(engine: Engine, metadata: seq<ColumnMeta>, select: Select, visits: seq<Visit>, key: Cell)
    requires MetadataOk(metadata) && Pageable(metadata, select)
    requires IsRun(engine, metadata, select, visits)
    requires !visits[|visits| - 1].page.truncated
    requires forall v :: 0 <= v < |visits| ==> Present(engine, select, visits[v].table, key)
    requires AllAfter(engine, select, CursorKey(metadata, select), [key])
    ensures key in AllKeys(visits)
    ensures exists i: nat, j: nat :: ReturnedAt(engine, select, visits, key, i, j)
  {
    RunIsChain(engine, metadata, select, visits);
    var i, j := ChainMissesNothing(engine, select, CursorKey(metadata, select), visits, key);
  }

  /** Exactly once: a key present and matching in all snapshots has one position among the returned keys. */
  lemma ExactlyOnce(engine: Engine, metadata: seq<ColumnMeta>, select: Select, visits: seq<Visit>, key: Cell)
    requires MetadataOk(metadata) && Pageable(metadata, select) && select.after.None?
    requires IsRun(engine, metadata, select, visits)
    requires !visits[|visits| - 1].page.truncated
    requires forall v :: 0 <= v < |visits| ==> Present(engine, select, visits[v].table, key)
    ensures multiset(AllKeys(visits))[key] == 1
    ensures exists i: nat, j: nat :: ReturnedAt(engine, select, visits, key, i, j)
  {
    NothingMissed(engine, metadata, select, visits, key);
    NeverTwice(engine, metadata, select, visits);
    OnceInIncreasing(engine, select, AllKeys(visits), key);
  }

  lemma {:induction false} OnceInIncreasing(engine: Engine, select: Select, keys: seq<Cell>, key: Cell)
    requires select.order.Some? && Increasing(engine, select, keys)
    ensures multiset(keys)[key] == if key in keys then 1 else 0
  {
    if keys != [] {
      var front, last := keys[..|keys| - 1], keys[|keys| - 1];
      OnceInIncreasing(engine, select, front, key);
      assert keys == front + [last];
      assert forall i :: 0 <= i < |front| ==> Rank(engine, select, front[i]) < Rank(engine, select, last);
    }
  }

  // ---- A table that does not change ------------------------------------------------------------------------

  /** All rows of a run, as its reader gets them. */
  function AllRows(visits: seq<Visit>): seq<seq<Option<Cell>>> {
    if visits == [] then [] else ReadRows(visits[0].page.rows) + AllRows(visits[1..])
  }

  lemma FirstIsLeast(engine: Engine, select: Select, rows: seq<Row>, row: Row)
    requires select.order.Some? && Ascending(engine, select, rows) && row in rows
    ensures row == rows[0] || At(engine, select, rows[0]) < At(engine, select, row)
  {
    var i :| 0 <= i < |rows| && rows[i] == row;
  }

  lemma TailMembers(engine: Engine, select: Select, rows: seq<Row>)
    requires select.order.Some? && Ascending(engine, select, rows) && rows != []
    ensures Ascending(engine, select, rows[1..])
    ensures forall row :: row in rows[1..] <==> row in rows && row != rows[0]
  {
    var rest := rows[1..];
    assert rows == [rows[0]] + rest;
    assert forall i :: 0 <= i < |rest| ==> rest[i] == rows[i + 1];
    forall row | row in rest ensures row != rows[0] {
      var i :| 0 <= i < |rest| && rest[i] == row;
      assert At(engine, select, rows[0]) < At(engine, select, rows[i + 1]);
    }
  }

  /** Strictly sorted lists with the same rows are the same list. */
  lemma {:induction false} AscendingUnique(engine: Engine, select: Select, a: seq<Row>, b: seq<Row>)
    requires select.order.Some?
    requires Ascending(engine, select, a) && Ascending(engine, select, b)
    requires forall row :: row in a <==> row in b
    ensures a == b
  {
    assert a != [] ==> a[0] in a;
    assert b != [] ==> b[0] in b;
    if a != [] {
      FirstIsLeast(engine, select, a, b[0]);
      FirstIsLeast(engine, select, b, a[0]);
      TailMembers(engine, select, a);
      TailMembers(engine, select, b);
      AscendingUnique(engine, select, a[1..], b[1..]);
      assert a == [a[0]] + a[1..] && b == [b[0]] + b[1..];
    }
  }

  lemma IndexFollowsRank(engine: Engine, select: Select, rows: seq<Row>, i: nat, j: nat)
    requires select.order.Some? && Ascending(engine, select, rows) && i < |rows| && j < |rows|
    requires At(engine, select, rows[i]) < At(engine, select, rows[j])
    ensures i < j
  {
  }

  lemma SuffixMembers(engine: Engine, select: Select, rows: seq<Row>, k: nat)
    requires select.order.Some? && Ascending(engine, select, rows) && 0 < k <= |rows|
    ensures Ascending(engine, select, rows[k..])
    ensures forall row :: row in rows[k..] <==>
      row in rows && At(engine, select, row) > At(engine, select, rows[k - 1])
  {
    var left := rows[k..];
    assert forall i :: 0 <= i < |left| ==> left[i] == rows[k + i];
    forall row ensures row in left <==> row in rows && At(engine, select, row) > At(engine, select, rows[k - 1]) {
      if row in left {
        var i :| 0 <= i < |left| && left[i] == row;
        assert rows[k + i] == row;
      }
      if row in rows && At(engine, select, row) > At(engine, select, rows[k - 1]) {
        var i :| 0 <= i < |rows| && rows[i] == row;
        IndexFollowsRank(engine, select, rows, k - 1, i);
        assert left[i - k] == row;
      }
    }
  }

  /** What is still wanted after a page of an unchanged table is what the page left over. */
  lemma Remainder(engine: Engine, select: Select, cursor: Option<Cell>, visit: Visit, chosen: seq<Row>,
                  next: Visit, rest: seq<Row>)
    requires Shows(engine, select, cursor, visit, chosen) && visit.page.nextCursor.Some?
    requires Shows(engine, select, Some(KeyOf(select, chosen[|visit.page.rows| - 1])), next, rest)
    requires next.table == visit.table
    ensures rest == chosen[|visit.page.rows|..]
  {
    var kept := |visit.page.rows|;
    SuffixMembers(engine, select, chosen, kept);
    var last := chosen[kept - 1];
    assert last in chosen;
    forall row ensures row in rest <==> row in chosen && At(engine, select, row) > At(engine, select, last) {
      assert row in rest <==> row in visit.table && Wanted(engine, select, Some(KeyOf(select, last)))(row);
    }
    AscendingUnique(engine, select, chosen[kept..], rest);
  }

  lemma {:induction false} ChainReadsPrefix(engine: Engine, select: Select, cursor: Option<Cell>, visits: seq<Visit>, chosen: seq<Row>)
    requires select.order.Some? && IsLeg(engine, select, cursor, visits, chosen)
    requires forall v :: 0 <= v < |visits| ==> visits[v].table == visits[0].table
    ensures |AllRows(visits)| <= |chosen|
    ensures AllRows(visits) == FullRows(select, chosen[..|AllRows(visits)|])
    ensures !visits[|visits| - 1].page.truncated <==> |AllRows(visits)| == |chosen|
    ensures |visits| <= |AllRows(visits)| + 1
    decreases |visits|
  {
    hide FullRow, ReadRow, Wanted, ClippedTotal, Ascending, ReturnedKeys, KeyText, KeyOf, Keys;
    var kept := |visits[0].page.rows|;
    if |visits| > 1 {
      var last := Some(KeyOf(select, chosen[kept - 1]));
      assert IsChain(engine, select, last, visits[1..]);
      var rest :| IsLeg(engine, select, last, visits[1..], rest);
      assert visits[1].table == visits[0].table;
      Remainder(engine, select, cursor, visits[0], chosen, visits[1], rest);
      ChainReadsPrefix(engine, select, last, visits[1..], rest);
      ExtendPrefix(select, chosen, kept, AllRows(visits[1..]));
    } else {
      assert AllRows(visits[1..]) == [] && AllRows(visits) == ReadRows(visits[0].page.rows);
    }
  }

  lemma ExtendPrefix(select: Select, chosen: seq<Row>, kept: nat, later: seq<seq<Option<Cell>>>)
    requires kept <= |chosen| && |later| <= |chosen| - kept
    requires later == FullRows(select, chosen[kept..][..|later|])
    ensures FullRows(select, chosen[..kept]) + later == FullRows(select, chosen[..kept + |later|])
  {
    var all := FullRows(select, chosen[..kept + |later|]);
    forall i | kept <= i < kept + |later| ensures all[i] == later[i - kept] {
      assert chosen[kept..][..|later|][i - kept] == chosen[i];
    }
  }

  /** On a table that does not change, the pages concatenate to a prefix of the filtered and sorted
      rows; the run is complete exactly when its last page is untruncated; then its length is what
      `count_rows` reports for the same filters; and no run has more pages than rows, plus one. */
  lemma FixedTable(engine: Engine, metadata: seq<ColumnMeta>, select: Select, visits: seq<Visit>) returns (sorted: seq<Row>)
    requires MetadataOk(metadata) && Pageable(metadata, select) && select.after.None?
    requires IsRun(engine, metadata, select, visits)
    requires forall v :: 0 <= v < |visits| ==> visits[v].table == visits[0].table
    ensures multiset(sorted) == multiset(Keep(visits[0].table, row => MatchesFilters(engine, select.filters, row)))
    ensures forall i, j :: 0 <= i < j < |sorted| ==>
      var a, b := engine.rank(Get(sorted[i], select.order.value.column)), engine.rank(Get(sorted[j], select.order.value.column));
      if select.order.value.ascending then a < b else a > b
    ensures |AllRows(visits)| <= |sorted| && AllRows(visits) == FullRows(select, sorted[..|AllRows(visits)|])
    ensures !visits[|visits| - 1].page.truncated <==> |AllRows(visits)| == |sorted|
    ensures CountOf(engine, select.filters, visits[0].table) == Some(|sorted|)
    ensures |visits| <= |sorted| + 1
  {
    RunIsChain(engine, metadata, select, visits);
    sorted :| IsLeg(engine, select, None, visits, sorted);
    ChainReadsPrefix(engine, select, None, visits, sorted);
    var chosen := PageShows(engine, metadata, select, visits[0]);
    AscendingUnique(engine, select, chosen, sorted);
    KeepSame(visits[0].table, Wanted(engine, select, None), row => MatchesFilters(engine, select.filters, row));
    CountMeansFilters(engine, select.filters, visits[0].table);
    assert |multiset(sorted)| == |sorted|;
    assert forall i, j :: 0 <= i < j < |sorted| ==> At(engine, select, sorted[i]) < At(engine, select, sorted[j]);
  }
}
