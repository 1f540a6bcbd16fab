/** From the table to the caller: what a reader of the printed response gets. */
module QueryDelivery {
  import opened Basics
  import opened QueryRequest
  import opened QuerySql
  import opened QueryCells
  import opened QueryMeaning
  import opened QuerySelect
  import opened QueryPaging
  import opened QueryBudget
  import J = JsonText
  import JsonReader

  /** Python prints a finite float with a point or an exponent. */
  predicate FloatPrinted(cell: Cell) {
    cell.Float? && cell.finite ==> JsonReader.IsFloatText(cell.text)
  }

  ghost predicate FloatsPrinted(table: Table) {
    forall row, column :: row in table ==> FloatPrinted(Get(row, column))
  }

  /** The fields that the caller reads are those of a page of these rows. */
  ghost predicate Delivers(fields: J.Fields, select: Select, rows: seq<Row>, page: Page) {
    && J.Lookup(fields, "ok") == Some(J.Bool(true))
    && (exists items: seq<J.Json> ::
          && J.Lookup(fields, "rows") == Some(J.Arr(items)) && |items| == |rows|
          && forall i :: 0 <= i < |rows| ==> items[i].Arr? && ReadRow(items[i].items) == FullRow(select, rows[i]))
    && J.Lookup(fields, "truncated") == Some(J.Bool(page.truncated))
    && J.Lookup(fields, "truncatedCells") == Some(J.Num(ClippedTotal(select, rows)))
    && J.Lookup(fields, "nextCursor") == Some(if page.nextCursor.None? then J.Null else J.Str(page.nextCursor.value))
  }

  lemma CellIsReadable(dataType: string, cell: Cell)
    requires FloatPrinted(cell)
    ensures JsonReader.Readable(NormalizeCell(RawCell(dataType, cell)).0)
  {
    hide Base64;
  }

  lemma RowIsReadable(metadata: seq<ColumnMeta>, select: Select, row: Row)
    requires Known(metadata, select) && Pageable(metadata, select)
    requires forall column :: FloatPrinted(Get(row, column))
    ensures forall j :: 0 <= j < |select.columns| ==>
      JsonReader.Readable(NormalizeRow(RowCells(true, RawRow(metadata, select, row)))[j])
    ensures |NormalizeRow(RowCells(true, RawRow(metadata, select, row)))| == |select.columns|
  {
    hide RawCell, NormalizeCell, JsonReader.Readable, FloatPrinted;
    forall j | 0 <= j < |select.columns|
      ensures JsonReader.Readable(NormalizeRow(RowCells(true, RawRow(metadata, select, row)))[j])
    {
      CellIsReadable(TypeOf(metadata, select.columns[j]).value, Get(row, select.columns[j]));
    }
  }

  lemma ResponseIsReadable(select: Select, page: Page)
    requires forall i, j :: 0 <= i < |page.rows| && 0 <= j < |page.rows[i]| ==> JsonReader.Readable(page.rows[i][j])
    ensures JsonReader.Readable(Response(select, page))
  {
    var fields := Response(select, page).fields;
    FieldsOfResponse(select, page);
    var rows := RowsJson(page.rows);
    forall i | 0 <= i < |rows| ensures JsonReader.Readable(rows[i]) {
      assert rows[i] == J.Arr(page.rows[i]);
    }
    assert JsonReader.Readable(J.Arr(rows));
    var columns := RenderColumns(select.columns).items;
    assert forall i :: 0 <= i < |columns| ==> columns[i].Str?;
    AllFieldsReadable(fields);
  }

  lemma AllFieldsReadable(fields: J.Fields)
    requires forall i :: 0 <= i < |fields| ==> JsonReader.Readable(fields[i].value)
    ensures JsonReader.Readable(J.Obj(fields))
  {
  }

  lemma PageIsReadable(engine: Engine, metadata: seq<ColumnMeta>, select: Select, visit: Visit)
    requires MetadataOk(metadata) && Pageable(metadata, select)
    requires IsVisit(engine, metadata, select, visit) && FloatsPrinted(visit.table)
    ensures JsonReader.Readable(Response(select, visit.page))
  {
    hide SelectPage, Response, JsonReader.Readable, Conforms, Wanted, RawRow, FloatPrinted, Arranged;
    var chosen := AnswerRows(engine, metadata, select, visit);
    ReadsAscending(engine, metadata, select, visit.table, chosen);
    var n := KeptRows(metadata, select, visit.answer, visit.page);
    forall i, j | 0 <= i < n && 0 <= j < |visit.page.rows[i]| ensures JsonReader.Readable(visit.page.rows[i][j]) {
      assert Take(visit.answer, select.limit)[i] == RawRow(metadata, select, chosen[i]);
      assert chosen[i] in chosen;
      RowIsReadable(metadata, select, chosen[i]);
    }
    ResponseIsReadable(select, visit.page);
  }

  lemma ErrorReads()
    ensures JsonReader.Readable(TOO_LARGE)
  {
    AllFieldsReadable(TOO_LARGE.fields);
  }

  lemma ShownPageDelivers(engine: Engine, select: Select, cursor: Option<Cell>, visit: Visit, chosen: seq<Row>)
    requires Shows(engine, select, cursor, visit, chosen) && visit.page.pageable
    ensures Delivers(Response(select, visit.page).fields, select, chosen[..|visit.page.rows|], visit.page)
  {
    hide Response, J.Lookup, FullRow, ReadRow, ClippedTotal, Wanted, Ascending, ReturnedKeys;
    var page := visit.page;
    ResponseReads(select, page);
    var items := seq(|page.rows|, i requires 0 <= i < |page.rows| => J.Arr(page.rows[i]));
    forall i | 0 <= i < |page.rows| ensures items[i].Arr? && ReadRow(items[i].items) == FullRow(select, chosen[..|page.rows|][i]) {
      assert ReadRows(page.rows)[i] == FullRows(select, chosen[..|page.rows|])[i];
    }
  }

  lemma PageIsPageable(metadata: seq<ColumnMeta>, select: Select, answer: seq<seq<Cell>>)
    requires KeysReadable(Pageable(metadata, select), answer) && SelectPage(metadata, select, answer).Ok?
    ensures SelectPage(metadata, select, answer).value.pageable == Pageable(metadata, select)
  {
    hide Verdicts, NormalRows, ClippedIn, LastKey;
  }

  /** Whatever was printed reads back, with nothing left over: a page as the rows of the snapshot that it shows, cell
      by cell as stored, with what is said about the rest; and the one kind of page that outgrows the limit as an
      error. */
  lemma PageDelivered(engine: Engine, metadata: seq<ColumnMeta>, select: Select, visit: Visit) returns (chosen: seq<Row>)
    requires MetadataOk(metadata) && Pageable(metadata, select) && ValidSelect(select)
    requires IsVisit(engine, metadata, select, visit) && FloatsPrinted(visit.table)
    ensures Shows(engine, select, CursorKey(metadata, select), visit, chosen)
    ensures var raws, n := Take(visit.answer, select.limit), |visit.page.rows|;
      && n <= |raws| && KeysReadable(true, raws)
      && var lost := NullTooLong(true, select, |visit.answer| > select.limit, raws, n);
      var read := JsonReader.Read(Emitted(Response(select, visit.page)));
      && read.Some? && read.value.1 == "" && read.value.0.Obj?
      && (if lost then read.value.0.fields == [J.Field("ok", J.Bool(false)), J.Field("errorClass", J.Str("result_too_large"))]
          else Delivers(read.value.0.fields, select, chosen[..n], visit.page))
  {
    hide SelectPage, Response, JsonReader.Readable, JsonReader.Read, J.Encode, Conforms, NullTooLong, Shows, Delivers, Bind, Answers, Emitted;
    chosen := PageShows(engine, metadata, select, visit);
    PageIsPageable(metadata, select, visit.answer);
    ShownPageDelivers(engine, select, CursorKey(metadata, select), visit, chosen);
    EmitWithinLimit(metadata, select, visit.answer);
    PageIsReadable(engine, metadata, select, visit);
    JsonReader.PrintedReads(Response(select, visit.page));
    ErrorReads();
    JsonReader.PrintedReads(TOO_LARGE);
  }
}
