/** Compiling a selection preserves its meaning: the statement and its parameter list, bound from left
    to right, ask for exactly the rows and cells that the request describes. */
module QueryMeaning {
  import opened Basics
  import opened QueryRequest
  import opened QuerySql
  import opened QueryCells
  import J = JsonText

  // ---- The direct reading ----------------------------------------------------------------------

  /** A filter value as the cell that it stands for; validation lets no list and no object through. */
  function ValueCell(value: J.Json): Cell {
    if value.Arr? || value.Obj? then Null else ReadCell(value).value
  }

  predicate MatchesFilters(engine: Engine, filters: seq<Filter>, row: Row) {
    forall i :: 0 <= i < |filters| ==> engine.same(Get(row, filters[i].column), ValueCell(filters[i].value))
  }

  lemma ParamIsValue(value: J.Json)
    ensures ParamOf(value) == ValueCell(value)
  {
  }

  /** The key that a cursor text stands for. */
  function CursorKey(metadata: seq<ColumnMeta>, select: Select): Option<Cell> {
    if select.after.None? || select.order.None? || TypeOf(metadata, select.order.value.column).None? then None else
    match CursorParam(TypeOf(metadata, select.order.value.column).value, select.after.value)
    case Ok(cell) => Some(cell)
    case Err(_) => None
  }

  /** Rows still to be read: those after the cursor in reading direction, if there is a cursor. */
  predicate AheadOf(engine: Engine, order: Option<Order>, cursor: Option<Cell>, row: Row) {
    order.Some? && cursor.Some? ==>
      && !Get(row, order.value.column).Null?
      && Directed(engine, order.value.ascending, Get(row, order.value.column))
           > Directed(engine, order.value.ascending, cursor.value)
  }

  function Wanted(engine: Engine, select: Select, cursor: Option<Cell>): Row -> bool {
    row => MatchesFilters(engine, select.filters, row) && AheadOf(engine, select.order, cursor, row)
  }

  /** A requested cell as it leaves the server. */
  function RawCell(dataType: string, cell: Cell): Cell {
    if dataType in TEXT_TYPES || dataType in BINARY_TYPES then LeftOf(cell, MAX_VALUE_TEXT + 1) else cell
  }

  function RawCells(metadata: seq<ColumnMeta>, columns: seq<string>, row: Row): (raw: seq<Cell>)
    requires forall c :: c in columns ==> TypeOf(metadata, c).Some?
    ensures |raw| == |columns|
    ensures forall i :: 0 <= i < |columns| ==> raw[i] == RawCell(TypeOf(metadata, columns[i]).value, Get(row, columns[i]))
  {
    seq(|columns|, i requires 0 <= i < |columns| => RawCell(TypeOf(metadata, columns[i]).value, Get(row, columns[i])))
  }

  function RawRow(metadata: seq<ColumnMeta>, select: Select, row: Row): (raw: seq<Cell>)
    requires Known(metadata, select)
    ensures |raw| == |select.columns| + if Pageable(metadata, select) then 1 else 0
  {
    RawCells(metadata, select.columns, row)
      + (if Pageable(metadata, select) then [Get(row, select.order.value.column)] else [])
  }

  function RawRows(metadata: seq<ColumnMeta>, select: Select, rows: seq<Row>): (raws: seq<seq<Cell>>)
    requires Known(metadata, select)
    ensures |raws| == |rows|
    ensures forall i :: 0 <= i < |rows| ==> raws[i] == RawRow(metadata, select, rows[i])
  {
    seq(|rows|, i requires 0 <= i < |rows| => RawRow(metadata, select, rows[i]))
  }

  /** `chosen` lists the wanted rows of a snapshot in an order the request allows. */
  ghost predicate Reads(engine: Engine, metadata: seq<ColumnMeta>, select: Select, table: Table, chosen: seq<Row>) {
    Arranged(engine, select.order, Keep(table, Wanted(engine, select, CursorKey(metadata, select))), chosen)
  }

  // ---- Binding the compiled statement ---------------------------------------------------------

  function BoundSelectionOf(dataType: string, column: string): BoundSelection {
    if dataType in TEXT_TYPES || dataType in BINARY_TYPES then Clipped(column, MAX_VALUE_TEXT + 1) else Whole(column)
  }

  function BoundSelections(metadata: seq<ColumnMeta>, columns: seq<string>): (r: seq<BoundSelection>)
    requires forall c :: c in columns ==> TypeOf(metadata, c).Some?
    ensures |r| == |columns|
    ensures forall i :: 0 <= i < |columns| ==> r[i] == BoundSelectionOf(TypeOf(metadata, columns[i]).value, columns[i])
  {
    seq(|columns|, i requires 0 <= i < |columns| => BoundSelectionOf(TypeOf(metadata, columns[i]).value, columns[i]))
  }

  /** The parameters that one selected column brings. */
  function OwnParameters(dataType: string, column: string): seq<Cell> {
    if SelectionOf(dataType, column).Left? then [Int(MAX_VALUE_TEXT + 1)] else []
  }

  lemma BindFirst(dataType: string, column: string, more: seq<Selection>, parameters: seq<Cell>)
    requires BindSelections(more, parameters).Some?
    ensures BindSelections([SelectionOf(dataType, column)] + more, OwnParameters(dataType, column) + parameters)
      == Some(([BoundSelectionOf(dataType, column)] + BindSelections(more, parameters).value.0,
               BindSelections(more, parameters).value.1))
  {
    assert ([SelectionOf(dataType, column)] + more)[1..] == more;
    if SelectionOf(dataType, column).Left? {
      assert (OwnParameters(dataType, column) + parameters)[1..] == parameters;
    } else {
      assert OwnParameters(dataType, column) + parameters == parameters;
    }
  }

  lemma Associate<T>(a: seq<T>, b: seq<T>, c: seq<T>)
    ensures (a + b) + c == a + (b + c)
  {
  }

  function Keys(key: seq<string>): (r: seq<Selection>)
    ensures |r| == |key|
  {
    seq(|key|, i requires 0 <= i < |key| => Plain(key[i]))
  }

  function BoundKeys(key: seq<string>): (r: seq<BoundSelection>)
    ensures |r| == |key|
  {
    seq(|key|, i requires 0 <= i < |key| => Whole(key[i]))
  }

  lemma {:induction false} BindKeys(key: seq<string>, parameters: seq<Cell>)
    ensures BindSelections(Keys(key), parameters) == Some((BoundKeys(key), parameters))
  {
    if key != [] {
      BindKeys(key[1..], parameters);
      assert Keys(key)[1..] == Keys(key[1..]);
      assert BoundKeys(key) == [Whole(key[0])] + BoundKeys(key[1..]);
    }
  }

  /** Each clip length reaches its own column, whatever columns and types surround it. */
  lemma {:induction false} BindColumns(metadata: seq<ColumnMeta>, columns: seq<string>, key: seq<string>, rest: seq<Cell>)
    requires forall c :: c in columns ==> TypeOf(metadata, c).Some?
    ensures BindSelections(SelectionsOf(metadata, columns) + Keys(key), ClipParameters(metadata, columns) + rest)
         == Some((BoundSelections(metadata, columns) + BoundKeys(key), rest))
  {
    if columns == [] {
      assert SelectionsOf(metadata, columns) + Keys(key) == Keys(key);
      assert ClipParameters(metadata, columns) + rest == rest;
      assert BoundSelections(metadata, columns) + BoundKeys(key) == BoundKeys(key);
      BindKeys(key, rest);
    } else {
      var dataType := TypeOf(metadata, columns[0]).value;
      var first, own := [SelectionOf(dataType, columns[0])], OwnParameters(dataType, columns[0]);
      var bound := [BoundSelectionOf(dataType, columns[0])];
      Associate(first, SelectionsOf(metadata, columns[1..]), Keys(key));
      Associate(own, ClipParameters(metadata, columns[1..]), rest);
      Associate(bound, BoundSelections(metadata, columns[1..]), BoundKeys(key));
      assert BoundSelections(metadata, columns) == bound + BoundSelections(metadata, columns[1..]);
      BindColumns(metadata, columns[1..], key, rest);
      BindFirst(dataType, columns[0],
        SelectionsOf(metadata, columns[1..]) + Keys(key), ClipParameters(metadata, columns[1..]) + rest);
    }
  }

  function BoundConditions(where: seq<Condition>, values: seq<Cell>): seq<BoundCondition>
    requires |where| == |values|
  {
    seq(|where|, i requires 0 <= i < |where| => BindCondition(where[i], values[i]))
  }

  lemma {:induction false} BindConditions(where: seq<Condition>, values: seq<Cell>, rest: seq<Cell>)
    requires |where| == |values|
    ensures BindWhere(where, values + rest) == Some((BoundConditions(where, values), rest))
  {
    if where == [] {
      assert values + rest == rest;
    } else {
      BindConditions(where[1..], values[1..], rest);
      assert (values + rest)[1..] == values[1..] + rest;
      assert BoundConditions(where, values) == [BindCondition(where[0], values[0])] + BoundConditions(where[1..], values[1..]);
    }
  }

  /** What the compiled statement becomes once bound. */
  ghost function BoundOf(metadata: seq<ColumnMeta>, select: Select): Bound
    requires Compile(metadata, select).Ok?
  {
    var cursor := CursorPart(metadata, select).value;
    Bound(
      BoundSelections(metadata, select.columns)
        + (if Pageable(metadata, select) then [Whole(select.order.value.column)] else []),
      BoundConditions(FilterConditions(select.filters) + cursor.0, FilterParameters(select.filters) + cursor.1),
      select.order,
      select.limit + 1)
  }

  lemma BindCompiled(metadata: seq<ColumnMeta>, select: Select)
    requires Compile(metadata, select).Ok?
    ensures var compiled := Compile(metadata, select).value;
      Bind(compiled.statement, compiled.parameters) == Some(BoundOf(metadata, select))
  {
    var compiled := Compile(metadata, select).value;
    var cursor := CursorPart(metadata, select).value;
    var key := if Pageable(metadata, select) then [select.order.value.column] else [];
    var values := FilterParameters(select.filters) + cursor.1;
    var rest := values + [Int(select.limit + 1)];
    assert compiled.parameters == ClipParameters(metadata, select.columns) + rest;
    assert Keys(key) == if Pageable(metadata, select) then [Plain(select.order.value.column)] else [];
    assert BoundKeys(key) == if Pageable(metadata, select) then [Whole(select.order.value.column)] else [];
    BindColumns(metadata, select.columns, key, rest);
    BindConditions(compiled.statement.where, values, [Int(select.limit + 1)]);
  }

  // ---- The theorem ---------------------------------------------------------------------------

  lemma ConditionsMeanWanted(engine: Engine, metadata: seq<ColumnMeta>, select: Select, row: Row)
    requires Compile(metadata, select).Ok?
    ensures AllHold(engine, BoundOf(metadata, select).where, row)
       <==> Wanted(engine, select, CursorKey(metadata, select))(row)
  {
    var where := BoundOf(metadata, select).where;
    var cursor := CursorPart(metadata, select).value;
    var n := |select.filters|;
    assert |where| == n + |cursor.0|;
    forall i | 0 <= i < n ensures where[i] == Equals(select.filters[i].column, ValueCell(select.filters[i].value)) {
      ParamIsValue(select.filters[i].value);
    }
    assert cursor.0 != [] ==> where[n] == BindCondition(cursor.0[0], cursor.1[0]);
    if cursor.0 != [] {
      CursorNotNull(TypeOf(metadata, select.order.value.column).value, select.after.value);
    }
    if AllHold(engine, where, row) {
      assert forall i :: 0 <= i < n ==> Holds(engine, where[i], row);
      assert cursor.0 != [] ==> Holds(engine, where[n], row);
    }
  }

  lemma CursorNotNull(dataType: string, after: string)
    ensures CursorParam(dataType, after).Ok? ==> !CursorParam(dataType, after).value.Null?
  {
  }

  lemma ProjectionIsRawRow(metadata: seq<ColumnMeta>, select: Select, row: Row)
    requires Compile(metadata, select).Ok?
    ensures Project(BoundOf(metadata, select).selections, row) == RawRow(metadata, select, row)
  {
    var selections := BoundOf(metadata, select).selections;
    forall i | 0 <= i < |select.columns|
      ensures Select1(selections[i], row) == RawRow(metadata, select, row)[i]
    {
      assert selections[i] == BoundSelectionOf(TypeOf(metadata, select.columns[i]).value, select.columns[i]);
    }
  }

  /** An answer is legal for the compiled statement exactly when it is the direct reading of the
      request: the wanted rows in request order, at most one more than the limit, cell by cell. */
  lemma CompilePreservesMeaning(engine: Engine, metadata: seq<ColumnMeta>, select: Select, table: Table, answer: seq<seq<Cell>>)
    requires Compile(metadata, select).Ok?
    ensures var compiled := Compile(metadata, select).value;
      && Bind(compiled.statement, compiled.parameters).Some?
      && (Answers(engine, Bind(compiled.statement, compiled.parameters).value, table, answer) <==>
          exists chosen :: Reads(engine, metadata, select, table, chosen)
                        && answer == RawRows(metadata, select, Take(chosen, select.limit + 1)))
  {
    BindCompiled(metadata, select);
    var bound := BoundOf(metadata, select);
    forall row ensures AllHold(engine, bound.where, row) <==> Wanted(engine, select, CursorKey(metadata, select))(row) {
      ConditionsMeanWanted(engine, metadata, select, row);
    }
    KeepSame(table, row => AllHold(engine, bound.where, row), Wanted(engine, select, CursorKey(metadata, select)));
    forall rows: seq<Row>
      ensures ProjectAll(bound.selections, rows) == RawRows(metadata, select, rows)
    {
      forall i | 0 <= i < |rows| ensures ProjectAll(bound.selections, rows)[i] == RawRows(metadata, select, rows)[i] {
        ProjectionIsRawRow(metadata, select, rows[i]);
      }
    }
    AnswersUnfold(engine, metadata, select, bound, table, answer);
  }

  lemma AnswersUnfold(engine: Engine, metadata: seq<ColumnMeta>, select: Select, bound: Bound, table: Table, answer: seq<seq<Cell>>)
    requires Known(metadata, select) && bound.limit == select.limit + 1 && bound.order == select.order
    requires Keep(table, row => AllHold(engine, bound.where, row)) == Keep(table, Wanted(engine, select, CursorKey(metadata, select)))
    requires forall rows: seq<Row> :: ProjectAll(bound.selections, rows) == RawRows(metadata, select, rows)
    ensures Answers(engine, bound, table, answer) <==>
      exists chosen :: Reads(engine, metadata, select, table, chosen)
                    && answer == RawRows(metadata, select, Take(chosen, select.limit + 1))
  {
    if Answers(engine, bound, table, answer) {
      var chosen: seq<Row> :|
        && Arranged(engine, bound.order, Keep(table, row => AllHold(engine, bound.where, row)), chosen)
        && answer == ProjectAll(bound.selections, Take(chosen, bound.limit));
      assert Reads(engine, metadata, select, table, chosen);
    }
    if chosen :| && Reads(engine, metadata, select, table, chosen)
                 && answer == RawRows(metadata, select, Take(chosen, select.limit + 1)) {
      assert Arranged(engine, bound.order, Keep(table, row => AllHold(engine, bound.where, row)), chosen);
      assert answer == ProjectAll(bound.selections, Take(chosen, bound.limit));
    }
  }

  // ---- Counting --------------------------------------------------------------------------------

  /** `count_rows`: COUNT(*) under the same filter conditions and parameters, without cursor or limit. */
  function CountOf(engine: Engine, filters: seq<Filter>, table: Table): Option<nat> {
    match BindWhere(FilterConditions(filters), FilterParameters(filters))
    case Some((where, left)) =>
      if left == [] then Some(|Keep(table, row => AllHold(engine, where, row))|) else None
    case None => None
  }

  lemma CountMeansFilters(engine: Engine, filters: seq<Filter>, table: Table)
    ensures CountOf(engine, filters, table) == Some(|Keep(table, row => MatchesFilters(engine, filters, row))|)
  {
    var where, values := FilterConditions(filters), FilterParameters(filters);
    BindConditions(where, values, []);
    assert values + [] == values;
    var bound := BoundConditions(where, values);
    forall row ensures AllHold(engine, bound, row) <==> MatchesFilters(engine, filters, row) {
      forall i | 0 <= i < |filters| ensures bound[i] == Equals(filters[i].column, ValueCell(filters[i].value)) {
        ParamIsValue(filters[i].value);
      }
      if AllHold(engine, bound, row) {
        assert forall i :: 0 <= i < |filters| ==> Holds(engine, bound[i], row);
      }
    }
    KeepSame(table, row => AllHold(engine, bound, row), row => MatchesFilters(engine, filters, row));
  }

  // ---- Clipping at the server and again at the client -------------------------------------------

  /** Fetching one character more than the limit is enough: the cell and its clip flag are those of
      the full stored value. */
  lemma ClipThenNormalize(dataType: string, cell: Cell)
    ensures NormalizeCell(RawCell(dataType, cell)) == NormalizeCell(cell)
  {
    match cell
    case Text(s) => assert Take(Take(s, MAX_VALUE_TEXT + 1), MAX_VALUE_TEXT) == Take(s, MAX_VALUE_TEXT);
    case Bytes(bytes) => assert Take(Take(bytes, MAX_VALUE_TEXT + 1), MAX_VALUE_TEXT) == Take(bytes, MAX_VALUE_TEXT);
    case _ =>
  }
}
