/** Pages always exist, and following the cursor over a table that stays as it is comes to an end. */
module QueryProgress {
  import opened Basics
  import opened QueryRequest
  import opened QuerySql
  import opened QueryMeaning
  import opened QuerySelect
  import opened QueryPaging

  // ---- An answer for every snapshot ------------------------------------------------------------------------

  function Rank1(engine: Engine, order: Order, row: Row): real {
    Directed(engine, order.ascending, Get(row, order.column))
  }

  function InsertRow(engine: Engine, order: Order, rows: seq<Row>, row: Row): (r: seq<Row>)
    ensures multiset(r) == multiset(rows) + multiset{row}
  {
    if rows == [] then [row]
    else if Rank1(engine, order, row) <= Rank1(engine, order, rows[0]) then [row] + rows
    else
      assert rows == [rows[0]] + rows[1..];
      [rows[0]] + InsertRow(engine, order, rows[1..], row)
  }

  function SortRows(engine: Engine, order: Order, rows: seq<Row>): (r: seq<Row>)
    ensures multiset(r) == multiset(rows)
  {
    if rows == [] then []
    else
      assert rows == [rows[0]] + rows[1..];
      InsertRow(engine, order, SortRows(engine, order, rows[1..]), rows[0])
  }

  ghost predicate InOrder(engine: Engine, order: Order, rows: seq<Row>) {
    forall i, j :: 0 <= i < j < |rows| ==> Rank1(engine, order, rows[i]) <= Rank1(engine, order, rows[j])
  }

  lemma {:induction false} InsertKeepsOrder(engine: Engine, order: Order, rows: seq<Row>, row: Row)
    requires InOrder(engine, order, rows)
    ensures InOrder(engine, order, InsertRow(engine, order, rows, row))
  {
    hide Rank1;
    if rows != [] && !(Rank1(engine, order, row) <= Rank1(engine, order, rows[0])) {
      InsertKeepsOrder(engine, order, rows[1..], row);
      var rest := InsertRow(engine, order, rows[1..], row);
      forall j | 0 <= j < |rest| ensures Rank1(engine, order, rows[0]) <= Rank1(engine, order, rest[j]) {
        assert rest[j] in multiset(rest);
        if rest[j] != row {
          assert rest[j] in multiset(rows[1..]);
          var k :| 0 <= k < |rows[1..]| && rows[1..][k] == rest[j];
          assert rows[k + 1] == rest[j];
        }
      }
    }
  }

  lemma {:induction false} SortIsArranged(engine: Engine, order: Order, rows: seq<Row>)
    ensures InOrder(engine, order, SortRows(engine, order, rows))
    ensures Arranged(engine, Some(order), rows, SortRows(engine, order, rows))
  {
    if rows != [] {
      SortIsArranged(engine, order, rows[1..]);
      InsertKeepsOrder(engine, order, SortRows(engine, order, rows[1..]), rows[0]);
    }
    forall i, j | 0 <= i < j < |SortRows(engine, order, rows)|
      ensures Directed(engine, order.ascending, Get(SortRows(engine, order, rows)[i], order.column))
           <= Directed(engine, order.ascending, Get(SortRows(engine, order, rows)[j], order.column))
    {
      assert Rank1(engine, order, SortRows(engine, order, rows)[i]) <= Rank1(engine, order, SortRows(engine, order, rows)[j]);
    }
  }

  lemma {:induction false} FillSucceeds(verdicts: seq<Result<bool, ErrorClass>>, k: nat)
    requires k <= |verdicts| && forall i :: 0 <= i < |verdicts| ==> verdicts[i].Ok?
    ensures Fill(verdicts, k).Ok?
    decreases |verdicts| - k
  {
    if k < |verdicts| {
      FillSucceeds(verdicts, k + 1);
    }
  }

  /** No key is longer than a cursor can carry. */
  ghost predicate KeysUsable(select: Select, table: Table)
    requires select.order.Some?
  {
    forall row :: row in table ==>
      var key := KeyOf(select, row);
      key.Int? || (key.Text? && |key.s| <= 4096)
  }

  lemma PageSucceeds(metadata: seq<ColumnMeta>, select: Select, table: Table, chosen: seq<Row>)
    requires Known(metadata, select) && Pageable(metadata, select) && KeysUsable(select, table)
    requires forall row :: row in chosen ==> row in table
    ensures var answer := RawRows(metadata, select, Take(chosen, select.limit + 1));
      KeysReadable(true, answer) && SelectPage(metadata, select, answer).Ok?
  {
    hide CandidateSize;
    var taken := Take(chosen, select.limit + 1);
    var answer := RawRows(metadata, select, taken);
    forall i | 0 <= i < |answer| ensures |answer[i]| > 0 && RowKey(true, answer[i]).Ok? {
      assert answer[i] == RawRow(metadata, select, taken[i]);
      ColumnNormalizes(metadata, select, taken[i]);
      assert taken[i] in chosen;
    }
    var raws := Take(Take(answer, select.limit + 1), select.limit);
    var overflow := |Take(answer, select.limit + 1)| > select.limit;
    var verdicts := Verdicts(select, true, overflow, raws);
    forall i | 0 <= i < |verdicts| ensures verdicts[i].Ok? {
      VerdictStep(select, true, overflow, raws, i);
      assert raws[i] == answer[i];
    }
    FillSucceeds(verdicts, 0);
  }

  /** Whatever the table holds, a compiled request in key order has an answer and a page, as long as the keys
      fit into a cursor. */
  lemma PageExists(engine: Engine, metadata: seq<ColumnMeta>, select: Select, table: Table) returns (visit: Visit)
    requires MetadataOk(metadata) && Pageable(metadata, select) && Compile(metadata, select).Ok?
    requires Conforms(engine, metadata, table) && KeysUsable(select, table)
    ensures visit.table == table && IsVisit(engine, metadata, select, visit)
  {
    hide SelectPage, Conforms, Wanted, RawRows, Arranged, SortRows;
    var kept := Keep(table, Wanted(engine, select, CursorKey(metadata, select)));
    var chosen := SortRows(engine, select.order.value, kept);
    SortIsArranged(engine, select.order.value, kept);
    forall row | row in chosen ensures row in table {
      assert row in multiset(chosen);
    }
    var answer := RawRows(metadata, select, Take(chosen, select.limit + 1));
    PageSucceeds(metadata, select, table, chosen);
    CompilePreservesMeaning(engine, metadata, select, table, answer);
    assert Reads(engine, metadata, select, table, chosen);
    visit := Visit(table, answer, SelectPage(metadata, select, answer).value);
  }

  // ---- Reading to the end ------------------------------------------------------------------------------------

  /** The rows still wanted. */
  function Left(engine: Engine, metadata: seq<ColumnMeta>, select: Select, table: Table): nat {
    |Keep(table, Wanted(engine, select, CursorKey(metadata, select)))|
  }

  lemma ReadsCount(engine: Engine, metadata: seq<ColumnMeta>, select: Select, table: Table, chosen: seq<Row>)
    requires Reads(engine, metadata, select, table, chosen)
    ensures |chosen| == Left(engine, metadata, select, table)
  {
    hide Wanted;
    assert |multiset(chosen)| == |chosen|;
  }

  /** Resuming on the same table leaves fewer rows. */
  lemma LeftShrinks(engine: Engine, metadata: seq<ColumnMeta>, select: Select, visit: Visit)
    requires MetadataOk(metadata) && Pageable(metadata, select)
    requires IsVisit(engine, metadata, select, visit) && KeysUsable(select, visit.table) && visit.page.nextCursor.Some?
    ensures var next := Resume(select, visit.page.nextCursor.value);
      && Pageable(metadata, next) && Compile(metadata, next).Ok?
      && Left(engine, metadata, next, visit.table) < Left(engine, metadata, select, visit.table)
  {
    hide Wanted, Conforms, SelectPage, Ascending, FullRow, Compile, ReturnedKeys, ClippedTotal, Arranged;
    var next := Resume(select, visit.page.nextCursor.value);
    var chosen := PageShows(engine, metadata, select, visit);
    ResumeAfterLast(engine, metadata, select, visit, chosen);
    var later := PageExists(engine, metadata, next, visit.table);
    var rest := PageShows(engine, metadata, next, later);
    ReadsCount(engine, metadata, select, visit.table, chosen);
    ReadsCount(engine, metadata, next, visit.table, rest);
    ShowsIgnoresAfter(engine, select, visit.page.nextCursor.value, CursorKey(metadata, next), later, rest);
    Remainder(engine, select, CursorKey(metadata, select), visit, chosen, later, rest);
  }

  /** On a table that stays as it is, following the cursor always comes to an end: with the last row, or at a
      row that alone is too large for a response, where the page is empty and has no cursor. */
  lemma {:induction false} PagingEnds(engine: Engine, metadata: seq<ColumnMeta>, select: Select, table: Table) returns (visits: seq<Visit>)
    requires MetadataOk(metadata) && Pageable(metadata, select) && Compile(metadata, select).Ok?
    requires Conforms(engine, metadata, table) && KeysUsable(select, table)
    ensures IsRun(engine, metadata, select, visits)
    ensures forall v :: 0 <= v < |visits| ==> visits[v].table == table
    ensures var last := visits[|visits| - 1].page; last.nextCursor.None? && (!last.truncated || last.rows == [])
    decreases Left(engine, metadata, select, table)
  {
    hide Conforms, SelectPage, Left, Compile, Pageable, IsVisit, MetadataOk, KeyText;
    var visit := PageExists(engine, metadata, select, table);
    if visit.page.nextCursor.Some? {
      LeftShrinks(engine, metadata, select, visit);
      var rest := PagingEnds(engine, metadata, Resume(select, visit.page.nextCursor.value), table);
      visits := [visit] + rest;
      assert visits[1..] == rest;
    } else {
      visits := [visit];
      LastPage(engine, metadata, select, visit);
    }
  }

  lemma LastPage(engine: Engine, metadata: seq<ColumnMeta>, select: Select, visit: Visit)
    requires MetadataOk(metadata) && Pageable(metadata, select) && IsVisit(engine, metadata, select, visit)
    requires visit.page.nextCursor.None?
    ensures !visit.page.truncated || visit.page.rows == []
  {
    hide IsVisit, MetadataOk, Pageable;
    var chosen := PageShows(engine, metadata, select, visit);
  }
}
