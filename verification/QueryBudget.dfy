/** The byte limit of a response: what `select_rows` keeps within it, and what `emit` does beyond it. */
module QueryBudget {
  import opened Basics
  import opened QueryRequest
  import opened QuerySql
  import opened QueryCells
  import opened QueryMeaning
  import opened QuerySelect
  import J = JsonText
  import Decimal

  // ---- Sizes of the parts -------------------------------------------------------------------------

  /** The encoded fields of a response before its cursor. */
  function BodySize(select: Select, rows: seq<seq<J.Json>>, truncated: bool, truncatedCells: nat): nat {
    |J.EncodeFields(ResponseFields(select, rows, truncated, truncatedCells))|
  }

  function CursorField(): nat {
    |J.Quote("nextCursor")| + 2
  }

  lemma ObjectWithField(fields: J.Fields, name: string, value: J.Json)
    requires fields != []
    ensures Size(J.Obj(fields)) == |J.EncodeFields(fields)| + 2
    ensures Size(J.Obj(fields + [J.Field(name, value)])) == |J.EncodeFields(fields)| + |J.Quote(name)| + 2 + Size(value) + 2
  {
    J.AppendField(fields, name, value);
  }

  /** A raised flag is one byte shorter. */
  lemma BodyFlag(select: Select, rows: seq<seq<J.Json>>, truncatedCells: nat)
    ensures BodySize(select, rows, true, truncatedCells) + 1 == BodySize(select, rows, false, truncatedCells)
  {
    J.ReplaceValue(BaseFields(select) + [J.Field("rows", J.Arr(RowsJson(rows)))], "truncated",
      J.Bool(true), J.Bool(false), [J.Field("truncatedCells", J.Num(truncatedCells))]);
  }

  lemma CandidateSizeParts(select: Select, rows: seq<seq<J.Json>>, truncated: bool, cells: nat, key: Option<string>)
    ensures Size(Candidate(select, rows, truncated, cells, key))
         == BodySize(select, rows, truncated, cells) + CursorField() + Size(CursorJson(key)) + 2
  {
    ObjectWithField(ResponseFields(select, rows, truncated, cells), "nextCursor", CursorJson(key));
  }

  lemma ResponseSizeParts(select: Select, page: Page)
    ensures Size(Response(select, page))
         == BodySize(select, page.rows, page.truncated, page.truncatedCells) + 2
          + if page.pageable then CursorField() + Size(CursorJson(page.nextCursor)) else 0
  {
    ObjectWithField(ResponseFields(select, page.rows, page.truncated, page.truncatedCells),
      "nextCursor", CursorJson(page.nextCursor));
  }

  // ---- An empty page always fits ---------------------------------------------------------------------

  lemma IdentifierSize(name: string)
    requires IsIdentifier(name)
    ensures |J.Quote(name)| <= 66
  {
    J.EscapePlain(name);
  }

  lemma {:induction false} ColumnsSize(columns: seq<string>)
    requires forall c :: c in columns ==> IsIdentifier(c)
    ensures |J.EncodeItems(RenderColumns(columns).items)| <= 67 * |columns|
  {
    if columns != [] {
      var front, last := columns[..|columns| - 1], columns[|columns| - 1];
      ColumnsSize(front);
      assert last in columns;
      IdentifierSize(last);
      assert RenderColumns(columns).items == RenderColumns(front).items + [J.Str(last)];
      J.AppendItem(RenderColumns(front).items, J.Str(last));
    }
  }

  lemma ValueSizes(select: Select)
    requires ValidSelect(select)
    ensures Size(J.Str(select.database)) <= 66 && Size(J.Str(select.table)) <= 66
    ensures Size(RenderColumns(select.columns)) <= 67 * |select.columns| + 2
  {
    ColumnsSize(select.columns);
    IdentifierSize(select.database);
    IdentifierSize(select.table);
  }

  lemma FixedValueSizes()
    ensures Size(J.Bool(true)) == 4 && Size(J.Str("select_rows")) <= 200
  {
    J.EscapeBound("select_rows");
  }

  lemma BaseFieldsWithin(select: Select)
    requires ValidSelect(select)
    ensures J.FieldsWithin(BaseFields(select), 4000)
  {
    hide J.Encode, RenderColumns;
    ValueSizes(select);
    FixedValueSizes();
    var base := BaseFields(select);
    FiveFieldsWithin(base[0], base[1], base[2], base[3], base[4], 4000);
    assert base == [base[0], base[1], base[2], base[3], base[4]];
  }

  ghost predicate FieldWithin(field: J.Field, bound: nat) {
    12 * |field.name| + Size(field.value) + 4 <= bound
  }

  lemma FiveFieldsWithin(a: J.Field, b: J.Field, c: J.Field, d: J.Field, e: J.Field, bound: nat)
    requires FieldWithin(a, bound) && FieldWithin(b, bound) && FieldWithin(c, bound)
    requires FieldWithin(d, bound) && FieldWithin(e, bound)
    ensures J.FieldsWithin([a, b, c, d, e], bound)
  {
    J.EscapeBound(a.name);
    J.EscapeBound(b.name);
    J.EscapeBound(c.name);
    J.EscapeBound(d.name);
    J.EscapeBound(e.name);
  }

  lemma EmptyPageFits(select: Select, truncated: bool)
    requires ValidSelect(select)
    ensures BodySize(select, [], truncated, 0) <= 40_000
  {
    BaseFieldsWithin(select);
    assert RowsJson([]) == [];
    BodyInSteps(BaseFields(select), truncated, 4000);
  }

  lemma BodyInSteps(base: J.Fields, truncated: bool, bound: nat)
    requires J.FieldsWithin(base, bound) && |base| == 5 && bound >= 200
    ensures |J.EncodeFields(base + [J.Field("rows", J.Arr([]))] + [J.Field("truncated", J.Bool(truncated))]
                            + [J.Field("truncatedCells", J.Num(0))])| <= 8 * bound
  {
    var f1 := base + [J.Field("rows", J.Arr([]))];
    var f2 := f1 + [J.Field("truncated", J.Bool(truncated))];
    J.FieldsWithinAppend(base, "rows", J.Arr([]), bound);
    J.FieldsWithinAppend(f1, "truncated", J.Bool(truncated), bound);
    J.FieldsWithinAppend(f2, "truncatedCells", J.Num(0), bound);
    J.FieldsBound(f2 + [J.Field("truncatedCells", J.Num(0))], bound);
  }

  // ---- The limit ---------------------------------------------------------------------------------------

  /** The size the loop measured when it accepted the page's last row. */
  function LastCandidate(pageable: bool, select: Select, overflow: bool, raws: seq<seq<Cell>>, n: nat): nat
    requires 0 < n <= |raws| && KeysReadable(pageable, raws)
  {
    CandidateSize(select, pageable, overflow, raws, n, LastKey(pageable, raws, n))
  }

  /** The one way over the limit: an untruncated last page loses its cursor, and `null` is longer than
      the quoted key that was measured. */
  ghost predicate NullTooLong(pageable: bool, select: Select, overflow: bool, raws: seq<seq<Cell>>, n: nat)
    requires n <= |raws| && KeysReadable(pageable, raws)
  {
    && pageable && !overflow && n == |raws| && n > 0
    && LastCandidate(pageable, select, overflow, raws, n) - Size(CursorJson(LastKey(pageable, raws, n))) + 4 > MAX_OUTPUT_BYTES
  }

  lemma PageFits(select: Select, pageable: bool, overflow: bool, raws: seq<seq<Cell>>, n: nat)
    requires ValidSelect(select) && n <= |raws| && KeysReadable(pageable, raws)
    requires Fill(Verdicts(select, pageable, overflow, raws), 0) == Ok(n)
    ensures var size := Size(Response(select, PageOf(pageable, overflow, raws, n)));
      && (size > MAX_OUTPUT_BYTES <==> NullTooLong(pageable, select, overflow, raws, n))
      && size <= MAX_OUTPUT_BYTES + 2
  {
    hide J.Encode, J.EncodeFields, J.Escape, Response, ResponseFields, NormalizeCell;
    var page := PageOf(pageable, overflow, raws, n);
    ResponseSizeParts(select, page);
    if n == 0 {
      assert raws[..n] == [] && page.rows == [];
      EmptyPageFits(select, page.truncated);
      CursorFieldSize();
    } else {
      LastFits(select, pageable, overflow, raws, n);
      var key := LastKey(pageable, raws, n);
      CandidateSizeParts(select, page.rows, overflow, page.truncatedCells, key);
      BodyFlag(select, page.rows, page.truncatedCells);
      KeySizes(pageable, raws, n);
    }
  }

  lemma LastFits(select: Select, pageable: bool, overflow: bool, raws: seq<seq<Cell>>, n: nat)
    requires 0 < n <= |raws| && KeysReadable(pageable, raws)
    requires Fill(Verdicts(select, pageable, overflow, raws), 0) == Ok(n)
    ensures LastCandidate(pageable, select, overflow, raws, n) <= MAX_OUTPUT_BYTES
    ensures RowKey(pageable, raws[n - 1]).Ok?
  {
    FillExact(Verdicts(select, pageable, overflow, raws), 0, n);
    assert Verdicts(select, pageable, overflow, raws)[n - 1] == Ok(true);
    VerdictStep(select, pageable, overflow, raws, n - 1);
  }

  lemma CursorFieldSize()
    ensures CursorField() <= 200 && Size(CursorJson(None)) == 4
  {
    J.EscapeBound("nextCursor");
  }

  lemma KeySizes(pageable: bool, raws: seq<seq<Cell>>, n: nat)
    requires 0 < n <= |raws| && KeysReadable(pageable, raws) && RowKey(pageable, raws[n - 1]).Ok?
    ensures LastKey(pageable, raws, n).Some? <==> pageable
    ensures Size(CursorJson(None)) == 4
    ensures pageable ==> Size(CursorJson(LastKey(pageable, raws, n))) >= 2
  {
  }

  /** Only a last page whose key is at most one character is ever in that case. */
  lemma NullTooLongNeedsShortKey(select: Select, pageable: bool, overflow: bool, raws: seq<seq<Cell>>, n: nat)
    requires n <= |raws| && KeysReadable(pageable, raws)
    requires Fill(Verdicts(select, pageable, overflow, raws), 0) == Ok(n)
    requires NullTooLong(pageable, select, overflow, raws, n)
    ensures LastKey(pageable, raws, n).Some? && |LastKey(pageable, raws, n).value| <= 1
    ensures Size(CursorJson(LastKey(pageable, raws, n))) <= 3
  {
    hide J.Encode, CandidateSize;
    LastFits(select, pageable, overflow, raws, n);
    KeySizes(pageable, raws, n);
    var key := LastKey(pageable, raws, n).value;
    StrSize(key);
    J.EscapeAtLeast(key);
  }

  /** The page keeps a prefix of the fetched rows that its next row would push over the limit; its
      encoding stays within the limit except in the one case named, and then by at most two bytes. */
  lemma ByteBudget(metadata: seq<ColumnMeta>, select: Select, answer: seq<seq<Cell>>)
    requires ValidSelect(select) && KeysReadable(Pageable(metadata, select), answer)
    requires SelectPage(metadata, select, answer).Ok?
    ensures var page := SelectPage(metadata, select, answer).value;
      var pageable, overflow := Pageable(metadata, select), |answer| > select.limit;
      var raws, n := Take(answer, select.limit), |page.rows|;
      && n <= |raws| && KeysReadable(pageable, raws)
      && page.rows == NormalRows(pageable, raws[..n])
      && (n < |raws| ==>
          && RowKey(pageable, raws[n]).Ok?
          && Size(Response(select, Page(NormalRows(pageable, raws[..n + 1]), overflow, ClippedIn(pageable, raws[..n + 1]), true,
                                        RowKey(pageable, raws[n]).value))) > 262_144)
      && (Size(Response(select, page)) > 262_144 <==> NullTooLong(pageable, select, overflow, raws, n))
      && (NullTooLong(pageable, select, overflow, raws, n) ==>
            && Size(CursorJson(LastKey(pageable, raws, n))) <= 3
            && LastKey(pageable, raws, n).Some? && |LastKey(pageable, raws, n).value| <= 1)
      && Size(Response(select, page)) <= 262_146
  {
    hide J.Encode, Candidate, Response, SelectPage, Verdicts, PageOf, NullTooLong, NormalRows, RowKey, CursorJson, LastKey;
    var pageable, overflow := Pageable(metadata, select), |answer| > select.limit;
    var raws := Take(answer, select.limit);
    var n := PageIsFilled(metadata, select, answer);
    PageFits(select, pageable, overflow, raws, n);
    if NullTooLong(pageable, select, overflow, raws, n) {
      NullTooLongNeedsShortKey(select, pageable, overflow, raws, n);
    }
    if n < |raws| {
      VerdictStep(select, pageable, overflow, raws, n);
      CandidateIsResponse(select, NormalRows(pageable, raws[..n + 1]), overflow, ClippedIn(pageable, raws[..n + 1]), RowKey(pageable, raws[n]).value);
    }
  }

  lemma PageIsFilled(metadata: seq<ColumnMeta>, select: Select, answer: seq<seq<Cell>>) returns (n: nat)
    requires KeysReadable(Pageable(metadata, select), answer) && SelectPage(metadata, select, answer).Ok?
    ensures var pageable, overflow := Pageable(metadata, select), |answer| > select.limit;
      var raws, page := Take(answer, select.limit), SelectPage(metadata, select, answer).value;
      var verdicts := Verdicts(select, pageable, overflow, raws);
      && n == |page.rows| <= |raws|
      && page == PageOf(pageable, overflow, raws, n)
      && page.rows == NormalRows(pageable, raws[..n])
      && Fill(verdicts, 0) == Ok(n)
      && (n < |raws| ==> verdicts[n] == Ok(false))
  {
    hide J.Encode, Candidate;
    var raws := Take(answer, select.limit);
    assert Take(Take(answer, select.limit + 1), select.limit) == raws;
    var verdicts := Verdicts(select, Pageable(metadata, select), |answer| > select.limit, raws);
    n := Fill(verdicts, 0).value;
    FillExact(verdicts, 0, n);
  }

  // ---- emit ------------------------------------------------------------------------------------------------

  const TOO_LARGE := J.Obj([J.Field("ok", J.Bool(false)), J.Field("errorClass", J.Str("result_too_large"))])

  /** `emit`: an oversized payload is replaced by an error. */
  function Emitted(value: J.Json): string {
    if Size(value) > MAX_OUTPUT_BYTES then J.Encode(TOO_LARGE) else J.Encode(value)
  }

  lemma PairSize(first: J.Field, second: J.Field)
    ensures Size(J.Obj([first, second]))
      == |J.Quote(first.name)| + Size(first.value) + |J.Quote(second.name)| + Size(second.value) + 5
  {
    assert [first] + [second] == [first, second];
    J.AppendField([first], second.name, second.value);
  }

  lemma TooLargeIsSmall()
    ensures Size(TOO_LARGE) <= 1000
  {
    PairSize(TOO_LARGE.fields[0], TOO_LARGE.fields[1]);
    J.EscapeBound("ok");
    J.EscapeBound("errorClass");
    J.EscapeBound("result_too_large");
  }

  /** Nothing longer than the limit is ever printed; and a page is printed as itself exactly when it
      is not one of the last pages that outgrow the limit by losing their cursor. */
  lemma EmitWithinLimit(metadata: seq<ColumnMeta>, select: Select, answer: seq<seq<Cell>>)
    requires ValidSelect(select) && KeysReadable(Pageable(metadata, select), answer)
    requires SelectPage(metadata, select, answer).Ok?
    ensures var page := SelectPage(metadata, select, answer).value;
      var raws := Take(answer, select.limit);
      && |Emitted(Response(select, page))| <= 262_144
      && |page.rows| <= |raws| && KeysReadable(Pageable(metadata, select), raws)
      && (Emitted(Response(select, page)) == J.Encode(Response(select, page))
          <==> !NullTooLong(Pageable(metadata, select), select, |answer| > select.limit, raws, |page.rows|))
      && (Emitted(Response(select, page)) != J.Encode(Response(select, page)) ==>
            Emitted(Response(select, page))
              == J.Encode(J.Obj([J.Field("ok", J.Bool(false)), J.Field("errorClass", J.Str("result_too_large"))])))
  {
    hide J.Encode, Response, SelectPage, NullTooLong;
    ByteBudget(metadata, select, answer);
    TooLargeIsSmall();
  }

  /** Every row key in the answer has two or more characters. */
  ghost predicate KeysLong(pageable: bool, answer: seq<seq<Cell>>)
    requires KeysReadable(pageable, answer)
  {
    forall i :: 0 <= i < |answer| && RowKey(pageable, answer[i]).Ok? && RowKey(pageable, answer[i]).value.Some? ==>
      |RowKey(pageable, answer[i]).value.value| >= 2
  }

  /** So a table without one-character keys never loses a page: each is printed as itself. */
  lemma LongKeysArePrinted(metadata: seq<ColumnMeta>, select: Select, answer: seq<seq<Cell>>)
    requires ValidSelect(select) && KeysReadable(Pageable(metadata, select), answer)
    requires SelectPage(metadata, select, answer).Ok?
    requires KeysLong(Pageable(metadata, select), answer)
    ensures var page := SelectPage(metadata, select, answer).value;
      Emitted(Response(select, page)) == J.Encode(Response(select, page))
  {
    hide J.Encode, Response, SelectPage, CursorJson, LastCandidate, RowKey;
    ByteBudget(metadata, select, answer);
    var raws, n := Take(answer, select.limit), |SelectPage(metadata, select, answer).value.rows|;
    assert n > 0 ==> raws[n - 1] == answer[n - 1];
  }

  // ---- A page that emit loses --------------------------------------------------------------------------------

  function Filler(n: nat): string {
    seq(n, i => 'a')
  }

  function WitnessSelect(): Select {
    Select("d", "t", ["c"], [], Some(Order("k", false)), None, 100)
  }

  function WitnessMetadata(): seq<ColumnMeta> {
    [ColumnMeta("k", "int", "NO", "PRI"), ColumnMeta("c", "text", "YES", "")]
  }

  function WitnessRow(i: nat, x: nat): seq<Cell> {
    [Text(Filler(if i < 63 then MAX_VALUE_TEXT else x)), Int(64 - i)]
  }

  /** Sixty-four rows with the keys 64 down to 1, the last of them of any length. */
  function WitnessAnswer(x: nat): (r: seq<seq<Cell>>)
    ensures |r| == 64 && forall i :: 0 <= i < 64 ==> r[i] == WitnessRow(i, x)
  {
    seq(64, i requires 0 <= i < 64 => WitnessRow(i, x))
  }

  lemma WitnessRowSize(i: nat, x: nat)
    requires x <= MAX_VALUE_TEXT
    ensures var cells := RowCells(true, WitnessRow(i, x));
      && ClippedCells(cells) == 0
      && Size(RowJson(NormalizeRow(cells))) == (if i < 63 then MAX_VALUE_TEXT else x) + 4
  {
    var text := Filler(if i < 63 then MAX_VALUE_TEXT else x);
    var cells := RowCells(true, WitnessRow(i, x));
    assert cells == [Text(text)];
    assert Take(text, MAX_VALUE_TEXT) == text;
    assert NormalizeRow(cells) == [J.Str(text)];
    J.EscapePlain(text);
    assert J.EncodeItems([J.Str(text)]) == J.Encode(J.Str(text));
    assert ClippedCells(cells[..0]) == 0;
  }

  /** The row texts of the first `n` rows. */
  function WitnessRowsLength(x: nat, n: nat): nat
    requires n <= 64
  {
    if n == 0 then 0 else if n < 64 then 4101 * n - 1 else 4101 * 63 + x + 4
  }

  lemma OneMoreRow(pageable: bool, raws: seq<seq<Cell>>, i: nat)
    requires i < |raws| && KeysReadable(pageable, raws)
    ensures KeysReadable(pageable, raws[..i]) && KeysReadable(pageable, raws[..i + 1])
    ensures ClippedIn(pageable, raws[..i + 1]) == ClippedIn(pageable, raws[..i]) + ClippedCells(RowCells(pageable, raws[i]))
    ensures |J.EncodeItems(RowsJson(NormalRows(pageable, raws[..i + 1])))|
         == |J.EncodeItems(RowsJson(NormalRows(pageable, raws[..i])))| + (if i == 0 then 0 else 1)
            + Size(RowJson(NormalizeRow(RowCells(pageable, raws[i]))))
  {
    hide J.Encode, J.EncodeItems, NormalizeRow, RowCells, ClippedIn, ClippedCells, RowJson;
    PrefixStep(pageable, raws, i);
    var front, last := NormalRows(pageable, raws[..i]), NormalizeRow(RowCells(pageable, raws[i]));
    assert RowsJson(front + [last]) == RowsJson(front) + [RowJson(last)];
    J.AppendItem(RowsJson(front), RowJson(last));
  }

  lemma NoRowsYet(raws: seq<seq<Cell>>)
    ensures ClippedIn(true, raws[..0]) == 0 && J.EncodeItems(RowsJson(NormalRows(true, raws[..0]))) == ""
  {
  }

  lemma WitnessReadable(x: nat)
    ensures KeysReadable(true, WitnessAnswer(x))
  {
  }

  /** The encoded length of the first `n` rows. */
  lemma {:induction false} WitnessRowsSize(x: nat, n: nat)
    requires x <= MAX_VALUE_TEXT && n <= 64
    ensures var raws := WitnessAnswer(x)[..n];
      && KeysReadable(true, raws)
      && ClippedIn(true, raws) == 0
      && |J.EncodeItems(RowsJson(NormalRows(true, raws)))| == WitnessRowsLength(x, n)
  {
    hide J.Encode, J.EncodeItems, NormalRows, RowsJson, RowCells, NormalizeRow, WitnessRow, ClippedIn, ClippedCells, RowJson, KeysReadable;
    WitnessReadable(x);
    if n == 0 {
      NoRowsYet(WitnessAnswer(x));
      ReadablePrefix(WitnessAnswer(x), 0);
    } else {
      WitnessRowsSize(x, n - 1);
      WitnessRowSize(n - 1, x);
      OneMoreRow(true, WitnessAnswer(x), n - 1);
    }
  }

  lemma ReadablePrefix(raws: seq<seq<Cell>>, n: nat)
    requires n <= |raws| && KeysReadable(true, raws)
    ensures KeysReadable(true, raws[..n])
  {
  }

  /** Everything in a response of this shape but its rows and its key. */
  function FrameSize(select: Select): nat {
    BodySize(select, [], false, 0) + CursorField() + 2
  }

  lemma CandidateFrame(select: Select, rows: seq<seq<J.Json>>, key: string)
    ensures Size(Candidate(select, rows, false, 0, Some(key)))
         == FrameSize(select) + |J.EncodeItems(RowsJson(rows))| + |J.Quote(key)|
  {
    CandidateSizeParts(select, rows, false, 0, Some(key));
    assert RowsJson([]) == [];
    var after := [J.Field("truncated", J.Bool(false)), J.Field("truncatedCells", J.Num(0))];
    J.ReplaceValue(BaseFields(select), "rows", J.Arr(RowsJson(rows)), J.Arr([]), after);
    FrameFields(select, J.Arr(RowsJson(rows)));
    FrameFields(select, J.Arr([]));
    SizesOfArrays(RowsJson(rows));
  }

  lemma SizesOfArrays(items: seq<J.Json>)
    ensures Size(J.Arr(items)) == |J.EncodeItems(items)| + 2 && Size(J.Arr([])) == 2
  {
  }

  lemma FrameFields(select: Select, rows: J.Json)
    ensures BaseFields(select) + [J.Field("rows", rows)] + [J.Field("truncated", J.Bool(false))] + [J.Field("truncatedCells", J.Num(0))]
         == BaseFields(select) + [J.Field("rows", rows)] + [J.Field("truncated", J.Bool(false)), J.Field("truncatedCells", J.Num(0))]
  {
  }

  lemma FrameIsSmall()
    ensures FrameSize(WitnessSelect()) <= 3700
  {
    hide J.Encode, RenderColumns, J.Escape;
    var select := WitnessSelect();
    WitnessIsValid();
    ValueSizes(select);
    FixedValueSizes();
    CursorFieldSize();
    var base := BaseFields(select);
    FiveFieldsWithin(base[0], base[1], base[2], base[3], base[4], 400);
    assert base == [base[0], base[1], base[2], base[3], base[4]];
    assert RowsJson([]) == [];
    BodyInSteps(base, false, 400);
  }

  lemma WitnessIsValid()
    ensures ValidSelect(WitnessSelect()) && Pageable(WitnessMetadata(), WitnessSelect())
  {
    assert Lower("int") == "int";
    assert PrimaryColumns(WitnessMetadata()[1..]) == [];
  }

  /** Not every page that `select_rows` returns reaches the caller: this last page, read in descending
      key order down to the key 1, is one byte too long, and `emit` prints an error in its place. */
  lemma LastPageLost() returns (x: nat)
    ensures x <= MAX_VALUE_TEXT
    ensures var metadata, select, answer := WitnessMetadata(), WitnessSelect(), WitnessAnswer(x);
      && ValidSelect(select) && Pageable(metadata, select) && KeysReadable(true, answer)
      && SelectPage(metadata, select, answer).Ok?
      && var page := SelectPage(metadata, select, answer).value;
      && |page.rows| == |answer| == 64 && !page.truncated
      && Size(Response(select, page)) == MAX_OUTPUT_BYTES + 1
      && Emitted(Response(select, page)) == J.Encode(TOO_LARGE)
  {
    hide J.Encode, J.Escape, Candidate, ResponseFields, FrameSize, NormalizeCell;
    var select := WitnessSelect();
    WitnessIsValid();
    FrameIsSmall();
    x := MAX_OUTPUT_BYTES - FrameSize(select) - 4101 * 63 - 7;
    var answer := WitnessAnswer(x);
    WitnessPage(x);
    var page := PageOf(true, false, answer, 64);
    ResponseSizeParts(select, page);
    WitnessCandidate(x, 64);
    assert answer == answer[..64];
    CandidateSizeParts(select, page.rows, false, 0, Some("1"));
    KeyTextSize(1);
    CursorFieldSize();
    StrSize("1");
  }

  lemma StrSize(s: string)
    ensures Size(CursorJson(Some(s))) == |J.Quote(s)|
  {
  }

  lemma WitnessPage(x: nat)
    requires x <= MAX_VALUE_TEXT
    requires x == MAX_OUTPUT_BYTES - FrameSize(WitnessSelect()) - 4101 * 63 - 7
    ensures KeysReadable(true, WitnessAnswer(x))
    ensures SelectPage(WitnessMetadata(), WitnessSelect(), WitnessAnswer(x)) == Ok(PageOf(true, false, WitnessAnswer(x), 64))
  {
    hide J.Encode, Candidate, FrameSize, NormalizeCell;
    var answer := WitnessAnswer(x);
    WitnessIsValid();
    WitnessFits(x);
    FillExact(Verdicts(WitnessSelect(), true, false, answer), 0, 64);
    assert Take(Take(answer, 101), 100) == answer;
  }

  lemma WitnessCandidate(x: nat, n: nat)
    requires x <= MAX_VALUE_TEXT && 1 <= n <= 64
    ensures KeysReadable(true, WitnessAnswer(x)) && KeysReadable(true, WitnessAnswer(x)[..n])
    ensures RowKey(true, WitnessAnswer(x)[n - 1]) == Ok(Some(Decimal.IntText(65 - n)))
    ensures ClippedIn(true, WitnessAnswer(x)[..n]) == 0
    ensures var size := CandidateSize(WitnessSelect(), true, false, WitnessAnswer(x), n, Some(Decimal.IntText(65 - n)));
      && size <= FrameSize(WitnessSelect()) + 4 + (if n < 64 then 4101 * n - 1 else 4101 * 63 + x + 4)
      && (n == 64 ==> size == FrameSize(WitnessSelect()) + 4101 * 63 + x + 7)
  {
    hide J.Encode, J.EncodeItems, J.Escape, J.Quote, NormalizeCell, Candidate, WitnessSelect, FrameSize;
    WitnessRowsSize(x, n);
    CandidateFrame(WitnessSelect(), NormalRows(true, WitnessAnswer(x)[..n]), Decimal.IntText(65 - n));
    KeyTextSize(65 - n);
  }

  lemma KeyTextSize(key: nat)
    requires key < 100
    ensures |J.Quote(Decimal.IntText(key))| <= 4
    ensures Decimal.IntText(1) == "1" && |J.Quote(Decimal.IntText(1))| == 3
  {
    assert Decimal.Power10(2) == 100;
    Decimal.PrintLength(key, 2);
    J.EscapePlain(Decimal.IntText(key));
    J.EscapePlain("1");
  }

  lemma WitnessFits(x: nat)
    requires x <= MAX_VALUE_TEXT
    requires x == MAX_OUTPUT_BYTES - FrameSize(WitnessSelect()) - 4101 * 63 - 7
    ensures KeysReadable(true, WitnessAnswer(x))
    ensures var verdicts := Verdicts(WitnessSelect(), true, false, WitnessAnswer(x));
      forall m :: 0 <= m < 64 ==> verdicts[m] == Ok(true)
  {
    hide J.Encode, Candidate, FrameSize, NormalizeCell;
    forall m | 0 <= m < 64 ensures Verdicts(WitnessSelect(), true, false, WitnessAnswer(x))[m] == Ok(true) {
      WitnessCandidate(x, m + 1);
      VerdictStep(WitnessSelect(), true, false, WitnessAnswer(x), m);
    }
  }
}
