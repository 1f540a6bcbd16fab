/** `select_rows` and `emit`: one page, cut to the row limit and to the byte limit. */
module QuerySelect {
  import opened Basics
  import opened QueryRequest
  import opened QuerySql
  import opened QueryCells
  import opened QueryMeaning
  import J = JsonText
  import Decimal

  const MAX_OUTPUT_BYTES: nat := 262_144

  datatype Page = Page(
    rows: seq<seq<J.Json>>, truncated: bool, truncatedCells: nat, pageable: bool, nextCursor: Option<string>)

  // ---- The response ----------------------------------------------------------------------------

  function RowJson(row: seq<J.Json>): J.Json {
    J.Arr(row)
  }

  function RowsJson(rows: seq<seq<J.Json>>): (r: seq<J.Json>)
    ensures |r| == |rows|
  {
    seq(|rows|, i requires 0 <= i < |rows| => RowJson(rows[i]))
  }

  function BaseFields(select: Select): J.Fields {
    [ J.Field("ok", J.Bool(true)),
      J.Field("operation", J.Str("select_rows")),
      J.Field("database", J.Str(select.database)),
      J.Field("table", J.Str(select.table)),
      J.Field("columns", RenderColumns(select.columns)) ]
  }

  function ResponseFields(select: Select, rows: seq<seq<J.Json>>, truncated: bool, truncatedCells: nat): J.Fields {
    BaseFields(select)
      + [J.Field("rows", J.Arr(RowsJson(rows)))]
      + [J.Field("truncated", J.Bool(truncated))]
      + [J.Field("truncatedCells", J.Num(truncatedCells))]
  }

  function CursorJson(cursor: Option<string>): J.Json {
    if cursor.None? then J.Null else J.Str(cursor.value)
  }

  /** The candidate whose size decides whether a row still fits: it always names a cursor. */
  function Candidate(select: Select, rows: seq<seq<J.Json>>, truncated: bool, truncatedCells: nat, key: Option<string>): J.Json {
    J.Obj(ResponseFields(select, rows, truncated, truncatedCells) + [J.Field("nextCursor", CursorJson(key))])
  }

  /** The object handed to `emit`: only a pageable selection has a `nextCursor` field. */
  function Response(select: Select, page: Page): (r: J.Json)
    ensures r.Obj?
  {
    var fields := ResponseFields(select, page.rows, page.truncated, page.truncatedCells);
    J.Obj(if page.pageable then fields + [J.Field("nextCursor", CursorJson(page.nextCursor))] else fields)
  }

  lemma ResponseNames(select: Select, page: Page)
    ensures DistinctNames(Response(select, page).fields)
  {
    hide Response, RenderColumns, RowsJson, CursorJson;
    FieldsOfResponse(select, page);
  }

  /** What the caller reads off the response. */
  lemma ResponseReads(select: Select, page: Page)
    ensures var fields := Response(select, page).fields;
      && J.Lookup(fields, "ok") == Some(J.Bool(true))
      && J.Lookup(fields, "operation") == Some(J.Str("select_rows"))
      && J.Lookup(fields, "database") == Some(J.Str(select.database))
      && J.Lookup(fields, "table") == Some(J.Str(select.table))
      && J.Lookup(fields, "columns")
           == Some(J.Arr(seq(|select.columns|, i requires 0 <= i < |select.columns| => J.Str(select.columns[i]))))
      && J.Lookup(fields, "rows")
           == Some(J.Arr(seq(|page.rows|, i requires 0 <= i < |page.rows| => J.Arr(page.rows[i]))))
      && J.Lookup(fields, "truncated") == Some(J.Bool(page.truncated))
      && J.Lookup(fields, "truncatedCells") == Some(J.Num(page.truncatedCells))
      && J.Lookup(fields, "nextCursor") ==
           (if !page.pageable then None
            else Some(if page.nextCursor.None? then J.Null else J.Str(page.nextCursor.value)))
  {
    hide J.Lookup, Response, DistinctNames;
    ResponseNames(select, page);
    var fields := Response(select, page).fields;
    FieldsOfResponse(select, page);
    forall i: nat | i < |fields| ensures J.Lookup(fields, fields[i].name) == Some(fields[i].value) {
      LookupAt(fields, i);
    }
    var columns := seq(|select.columns|, i requires 0 <= i < |select.columns| => J.Str(select.columns[i]));
    assert RenderColumns(select.columns) == J.Arr(columns);
    var rows := seq(|page.rows|, i requires 0 <= i < |page.rows| => J.Arr(page.rows[i]));
    assert RowsJson(page.rows) == rows;
    if !page.pageable {
      NotAmong(fields, "nextCursor");
    }
  }

  lemma FieldsOfResponse(select: Select, page: Page)
    ensures var fields := Response(select, page).fields;
      && |fields| == (if page.pageable then 9 else 8)
      && fields[0] == J.Field("ok", J.Bool(true))
      && fields[1] == J.Field("operation", J.Str("select_rows"))
      && fields[2] == J.Field("database", J.Str(select.database))
      && fields[3] == J.Field("table", J.Str(select.table))
      && fields[4] == J.Field("columns", RenderColumns(select.columns))
      && fields[5] == J.Field("rows", J.Arr(RowsJson(page.rows)))
      && fields[6] == J.Field("truncated", J.Bool(page.truncated))
      && fields[7] == J.Field("truncatedCells", J.Num(page.truncatedCells))
      && (page.pageable ==> fields[8] == J.Field("nextCursor", CursorJson(page.nextCursor)))
  {
    hide RenderColumns, RowsJson, CursorJson;
  }

  lemma NotAmong(fields: J.Fields, name: string)
    requires forall i :: 0 <= i < |fields| ==> fields[i].name != name
    ensures J.Lookup(fields, name) == None
  {
    hide J.Lookup;
    assert name !in J.Names(fields);
  }

  /** The candidate is the response that the page would be if it ended there, cursor included. */
  lemma CandidateIsResponse(select: Select, rows: seq<seq<J.Json>>, truncated: bool, truncatedCells: nat, key: Option<string>)
    ensures Candidate(select, rows, truncated, truncatedCells, key)
         == Response(select, Page(rows, truncated, truncatedCells, true, key))
  {
    hide ResponseFields, CursorJson;
  }

  /** `ensure_ascii` makes the encoded text as long in bytes as in characters. */
  function Size(value: J.Json): nat {
    |J.Encode(value)|
  }

  // ---- One row ---------------------------------------------------------------------------------

  /** The trailing key cell as the string a cursor carries. */
  function KeyText(cell: Cell): Result<string, ErrorClass> {
    match cell
    case Int(i) => Ok(Decimal.IntText(i))
    case Text(s) => if |s| <= MAX_VALUE_TEXT then Ok(s) else Err(OrderColumnNotUnique)
    case _ => Err(OrderColumnNotUnique)
  }

  function RowKey(pageable: bool, raw: seq<Cell>): Result<Option<string>, ErrorClass>
    requires pageable ==> |raw| > 0
  {
    if !pageable then Ok(None) else
    var key :- KeyText(raw[|raw| - 1]);
    Ok(Some(key))
  }

  function RowCells(pageable: bool, raw: seq<Cell>): seq<Cell>
    requires pageable ==> |raw| > 0
  {
    if pageable then raw[..|raw| - 1] else raw
  }

  function NormalizeRow(cells: seq<Cell>): (r: seq<J.Json>)
    ensures |r| == |cells|
    ensures forall i :: 0 <= i < |cells| ==> r[i] == NormalizeCell(cells[i]).0
  {
    seq(|cells|, i requires 0 <= i < |cells| => NormalizeCell(cells[i]).0)
  }

  function ClippedCells(cells: seq<Cell>): nat {
    if cells == [] then 0
    else (if NormalizeCell(cells[|cells| - 1]).1 then 1 else 0) + ClippedCells(cells[..|cells| - 1])
  }

  // ---- The page ------------------------------------------------------------------------------------

  /** Every answer row of a pageable statement ends with its key. */
  predicate KeysReadable(pageable: bool, raws: seq<seq<Cell>>) {
    pageable ==> forall i :: 0 <= i < |raws| ==> |raws[i]| > 0
  }

  function NormalRows(pageable: bool, raws: seq<seq<Cell>>): (r: seq<seq<J.Json>>)
    requires KeysReadable(pageable, raws)
    ensures |r| == |raws|
    ensures forall i :: 0 <= i < |raws| ==> r[i] == NormalizeRow(RowCells(pageable, raws[i]))
  {
    seq(|raws|, i requires 0 <= i < |raws| => NormalizeRow(RowCells(pageable, raws[i])))
  }

  function ClippedIn(pageable: bool, raws: seq<seq<Cell>>): nat
    requires KeysReadable(pageable, raws)
  {
    if raws == [] then 0
    else ClippedIn(pageable, raws[..|raws| - 1]) + ClippedCells(RowCells(pageable, raws[|raws| - 1]))
  }

  /** The size of the response if the page ended after `n` rows, the last of which has this key. */
  function CandidateSize(select: Select, pageable: bool, overflow: bool, raws: seq<seq<Cell>>, n: nat, key: Option<string>): nat
    requires n <= |raws| && KeysReadable(pageable, raws)
  {
    Size(Candidate(select, NormalRows(pageable, raws[..n]), overflow, ClippedIn(pageable, raws[..n]), key))
  }

  /** Whether row `k` still fits after the rows before it; a row without a usable key is an error. */
  function Judge(select: Select, pageable: bool, overflow: bool, raws: seq<seq<Cell>>, k: nat): Result<bool, ErrorClass>
    requires k < |raws| && KeysReadable(pageable, raws)
  {
    var key :- RowKey(pageable, raws[k]);
    Ok(CandidateSize(select, pageable, overflow, raws, k + 1, key) <= MAX_OUTPUT_BYTES)
  }

  function Verdicts(select: Select, pageable: bool, overflow: bool, raws: seq<seq<Cell>>): (r: seq<Result<bool, ErrorClass>>)
    requires KeysReadable(pageable, raws)
    ensures |r| == |raws|
    ensures forall k :: 0 <= k < |raws| ==> r[k] == Judge(select, pageable, overflow, raws, k)
  {
    seq(|raws|, k requires 0 <= k < |raws| => Judge(select, pageable, overflow, raws, k))
  }

  /** How many rows the page keeps, given that the first `k` fit. */
  function Fill(verdicts: seq<Result<bool, ErrorClass>>, k: nat): (r: Result<nat, ErrorClass>)
    requires k <= |verdicts|
    ensures r.Ok? ==> k <= r.value <= |verdicts|
    decreases |verdicts| - k
  {
    if k == |verdicts| then Ok(k) else
    var fits :- verdicts[k];
    if fits then Fill(verdicts, k + 1) else Ok(k)
  }

  /** The page keeps the longest prefix in which every row fits: the next row, if any, does not. */
  lemma {:induction false} FillExact(verdicts: seq<Result<bool, ErrorClass>>, k: nat, n: nat)
    requires k <= n <= |verdicts|
    ensures Fill(verdicts, k) == Ok(n) <==>
      (forall m :: k <= m < n ==> verdicts[m] == Ok(true)) && (n < |verdicts| ==> verdicts[n] == Ok(false))
    decreases n - k
  {
    if k < n && verdicts[k] == Ok(true) {
      FillExact(verdicts, k + 1, n);
    }
  }

  function LastKey(pageable: bool, raws: seq<seq<Cell>>, n: nat): Option<string>
    requires n <= |raws| && KeysReadable(pageable, raws)
  {
    if n == 0 then None else
    match RowKey(pageable, raws[n - 1])
    case Ok(key) => key
    case Err(_) => None
  }

  function PageOf(pageable: bool, overflow: bool, raws: seq<seq<Cell>>, n: nat): Page
    requires n <= |raws| && KeysReadable(pageable, raws)
  {
    var truncated := overflow || n < |raws|;
    Page(NormalRows(pageable, raws[..n]), truncated, ClippedIn(pageable, raws[..n]), pageable,
      if pageable && truncated then LastKey(pageable, raws, n) else None)
  }

  /** The page for an answer of the compiled statement. */
  function SelectPage(metadata: seq<ColumnMeta>, select: Select, answer: seq<seq<Cell>>): Result<Page, ErrorClass>
    requires KeysReadable(Pageable(metadata, select), answer)
  {
    var fetched := Take(answer, select.limit + 1);
    var overflow := |fetched| > select.limit;
    var raws := Take(fetched, select.limit);
    var pageable := Pageable(metadata, select);
    var n :- Fill(Verdicts(select, pageable, overflow, raws), 0);
    Ok(PageOf(pageable, overflow, raws, n))
  }

  // ---- The source's loops --------------------------------------------------------------------------

  /** A driver cursor over the answer to an executed statement. */
  class RowCursor {
    var remaining: seq<seq<Cell>>

    constructor (answer: seq<seq<Cell>>)
      ensures remaining == answer
    {
      remaining := answer;
    }

    method FetchOne() returns (row: Option<seq<Cell>>)
      modifies this
      ensures old(remaining) == [] ==> row == None && remaining == []
      ensures old(remaining) != [] ==> row == Some(old(remaining)[0]) && remaining == old(remaining)[1..]
    {
      if remaining == [] {
        row := None;
      } else {
        row, remaining := Some(remaining[0]), remaining[1..];
      }
    }
  }

  /** `fetch_rows`: one row past the maximum tells whether there was more. */
  method FetchRows(cursor: RowCursor, maximum: nat) returns (rows: seq<seq<Cell>>, more: bool)
    modifies cursor
    ensures rows == Take(old(cursor.remaining), maximum)
    ensures more <==> |old(cursor.remaining)| > maximum
    ensures cursor.remaining == old(cursor.remaining)[|Take(old(cursor.remaining), maximum + 1)|..]
  {
    ghost var all := cursor.remaining;
    rows := [];
    var i := 0;
    while i < maximum + 1
      invariant 0 <= i <= maximum + 1
      invariant i <= |all| && rows == all[..i] && cursor.remaining == all[i..]
    {
      var row := cursor.FetchOne();
      if row.None? {
        break;
      }
      rows := rows + [row.value];
      i := i + 1;
    }
    more := |rows| > maximum;
    rows := Take(rows, maximum);
  }

  lemma PrefixStep(pageable: bool, raws: seq<seq<Cell>>, i: nat)
    requires i < |raws| && KeysReadable(pageable, raws)
    ensures NormalRows(pageable, raws[..i + 1])
         == NormalRows(pageable, raws[..i]) + [NormalizeRow(RowCells(pageable, raws[i]))]
    ensures ClippedIn(pageable, raws[..i + 1]) == ClippedIn(pageable, raws[..i]) + ClippedCells(RowCells(pageable, raws[i]))
  {
    assert raws[..i + 1][..i] == raws[..i];
    var longer, shorter := NormalRows(pageable, raws[..i + 1]), NormalRows(pageable, raws[..i]);
    assert longer[i] == NormalizeRow(RowCells(pageable, raws[i]));
    assert forall m :: 0 <= m < i ==> raws[..i + 1][m] == raws[..i][m] && longer[m] == shorter[m];
  }

  lemma VerdictStep(select: Select, pageable: bool, overflow: bool, raws: seq<seq<Cell>>, i: nat)
    requires i < |raws| && KeysReadable(pageable, raws)
    ensures var verdict := Verdicts(select, pageable, overflow, raws)[i];
      match RowKey(pageable, raws[i])
      case Err(error) => verdict == Err(error)
      case Ok(key) =>
        && verdict == Ok(CandidateSize(select, pageable, overflow, raws, i + 1, key) <= MAX_OUTPUT_BYTES)
        && LastKey(pageable, raws, i + 1) == key
  {
    assert Verdicts(select, pageable, overflow, raws)[i] == Judge(select, pageable, overflow, raws, i);
  }

  /** What row `i` decides, given that the rows before it fit. */
  lemma FillNext(select: Select, pageable: bool, overflow: bool, raws: seq<seq<Cell>>, i: nat)
    requires i < |raws| && KeysReadable(pageable, raws)
    ensures var verdicts := Verdicts(select, pageable, overflow, raws);
      match RowKey(pageable, raws[i])
      case Err(error) => Fill(verdicts, i) == Err(error)
      case Ok(key) =>
        && LastKey(pageable, raws, i + 1) == key
        && Fill(verdicts, i) == if CandidateSize(select, pageable, overflow, raws, i + 1, key) > MAX_OUTPUT_BYTES
                                then Ok(i) else Fill(verdicts, i + 1)
  {
    hide CandidateSize, LastKey, RowKey, Verdicts;
    VerdictStep(select, pageable, overflow, raws, i);
  }

  lemma CandidateIs(select: Select, pageable: bool, overflow: bool, raws: seq<seq<Cell>>, n: nat, key: Option<string>,
                    rows: seq<seq<J.Json>>, cells: nat)
    requires n <= |raws| && KeysReadable(pageable, raws)
    requires rows == NormalRows(pageable, raws[..n]) && cells == ClippedIn(pageable, raws[..n])
    ensures CandidateSize(select, pageable, overflow, raws, n, key) == Size(Candidate(select, rows, overflow, cells, key))
  {
    hide NormalRows, ClippedIn, Size, Candidate;
  }

  lemma PageIs(pageable: bool, fetchedMore: bool, overflow: bool, raws: seq<seq<Cell>>, n: nat, rows: seq<seq<J.Json>>, cells: nat,
               last: Option<string>)
    requires n <= |raws| && KeysReadable(pageable, raws) && (overflow <==> fetchedMore || n < |raws|)
    requires rows == NormalRows(pageable, raws[..n]) && cells == ClippedIn(pageable, raws[..n]) && last == LastKey(pageable, raws, n)
    ensures |rows| == n
    ensures PageOf(pageable, fetchedMore, raws, n) == Page(rows, overflow, cells, pageable, if pageable && overflow then last else None)
  {
    hide NormalRows, ClippedIn, LastKey;
  }

  lemma NothingYet(pageable: bool, raws: seq<seq<Cell>>)
    requires KeysReadable(pageable, raws)
    ensures NormalRows(pageable, raws[..0]) == [] && ClippedIn(pageable, raws[..0]) == 0 && LastKey(pageable, raws, 0) == None
  {
  }

  lemma FillDone(verdicts: seq<Result<bool, ErrorClass>>)
    ensures Fill(verdicts, |verdicts|) == Ok(|verdicts|)
  {
  }

  /** `select_rows` after execution: the loop that appends rows until one does not fit. */
  method SelectRows(metadata: seq<ColumnMeta>, select: Select, cursor: RowCursor) returns (r: Result<Page, ErrorClass>)
    requires KeysReadable(Pageable(metadata, select), cursor.remaining)
    modifies cursor
    ensures r == SelectPage(metadata, select, old(cursor.remaining))
  {
    var pageable := Pageable(metadata, select);
    var raws, _ := FetchRows(cursor, select.limit + 1);
    var overflow := |raws| > select.limit;
    raws := Take(raws, select.limit);
    r := FillPage(select, pageable, overflow, raws);
  }

  method FillPage(select: Select, pageable: bool, fetchedMore: bool, raws: seq<seq<Cell>>)
    returns (r: Result<Page, ErrorClass>)
    requires KeysReadable(pageable, raws)
    ensures var kept := Fill(Verdicts(select, pageable, fetchedMore, raws), 0);
      r == if kept.Ok? then Ok(PageOf(pageable, fetchedMore, raws, kept.value)) else Err(kept.error)
  {
    hide Candidate, CandidateSize, Verdicts, PageOf, NormalRows, ClippedIn, LastKey, RowKey, Fill, Size, ClippedCells, NormalizeRow, RowCells;
    ghost var verdicts := Verdicts(select, pageable, fetchedMore, raws);
    var overflow := fetchedMore;
    var rows, truncatedCells: nat, last: Option<string> := [], 0, None;
    var i := 0;
    NothingYet(pageable, raws);
    FillDone(verdicts);
    while i < |raws|
      invariant 0 <= i <= |raws| && overflow == fetchedMore
      invariant rows == NormalRows(pageable, raws[..i]) && truncatedCells == ClippedIn(pageable, raws[..i])
      invariant last == LastKey(pageable, raws, i)
      invariant Fill(verdicts, 0) == Fill(verdicts, i)
    {
      PrefixStep(pageable, raws, i);
      FillNext(select, pageable, fetchedMore, raws, i);
      var key := RowKey(pageable, raws[i]);
      if key.Err? {
        return Err(key.error);
      }
      var moreRows, moreCells := ExtendPage(pageable, rows, truncatedCells, raws[i]);
      CandidateIs(select, pageable, fetchedMore, raws, i + 1, key.value, moreRows, moreCells);
      if Size(Candidate(select, moreRows, overflow, moreCells, key.value)) > MAX_OUTPUT_BYTES {
        overflow := true;
        break;
      }
      rows, truncatedCells, last := moreRows, moreCells, key.value;
      i := i + 1;
    }
    var truncated := overflow || |rows| < |raws|;
    PageIs(pageable, fetchedMore, truncated, raws, i, rows, truncatedCells, last);
    return Ok(Page(rows, truncated, truncatedCells, pageable, if pageable && truncated then last else None));
  }

  lemma CellStep(cells: seq<Cell>, i: nat)
    requires i < |cells|
    ensures NormalizeRow(cells[..i + 1]) == NormalizeRow(cells[..i]) + [NormalizeCell(cells[i]).0]
    ensures ClippedCells(cells[..i + 1]) == ClippedCells(cells[..i]) + if NormalizeCell(cells[i]).1 then 1 else 0
  {
    hide NormalizeCell;
    assert cells[..i + 1][..i] == cells[..i];
  }

  /** The inner loop over one row's cells, after its key was taken off. */
  method ExtendPage(pageable: bool, rows: seq<seq<J.Json>>, truncatedCells: nat, raw: seq<Cell>)
    returns (moreRows: seq<seq<J.Json>>, moreCells: nat)
    requires pageable ==> |raw| > 0
    ensures moreRows == rows + [NormalizeRow(RowCells(pageable, raw))]
    ensures moreCells == truncatedCells + ClippedCells(RowCells(pageable, raw))
  {
    hide NormalizeCell;
    var cells := RowCells(pageable, raw);
    var normalized, clipped: nat := [], 0;
    var i := 0;
    while i < |cells|
      invariant 0 <= i <= |cells|
      invariant normalized == NormalizeRow(cells[..i]) && clipped == ClippedCells(cells[..i])
    {
      var (item, cut) := NormalizeCell(cells[i]);
      CellStep(cells, i);
      normalized := normalized + [item];
      clipped := clipped + if cut then 1 else 0;
      i := i + 1;
    }
    assert cells[..i] == cells;
    moreRows, moreCells := rows + [normalized], truncatedCells + clipped;
  }
}
