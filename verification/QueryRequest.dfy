/** The structured request of the database query protocol, and its validation. */
module QueryRequest {
  import opened Basics
  import opened JsonText
  import Decimal
  import R = Regexes

  const MAX_ROWS := 100
  const MAX_COLUMNS := 50
  const MAX_FILTERS := 20
  const MAX_VALUE_TEXT: nat := 4096
  const SAFE_INTEGER := 9_007_199_254_740_991

  /** `UnhashableValue` is the Python TypeError of a list or object tested for set membership. */
  datatype ErrorClass =
    | InvalidRequest | InvalidOperation | UnhashableValue
    | InvalidDatabase | InvalidTable | InvalidColumns | InvalidColumn
    | InvalidFilters | InvalidFilterColumn | InvalidFilterValue
    | InvalidOrder | InvalidOrderColumn | CursorRequiresOrder | InvalidCursor | InvalidLimit
    | ColumnNotFound | OrderColumnNotUnique | DatabaseQueryFailed

  datatype Filter = Filter(column: string, value: Json)

  datatype Order = Order(column: string, ascending: bool)

  datatype Select = Select(
    database: string,
    table: string,
    columns: seq<string>,
    filters: seq<Filter>,
    order: Option<Order>,
    after: Option<string>,
    limit: nat)

  datatype Request =
    | ListDatabases
    | ListTables(database: string)
    | DescribeTable(database: string, table: string)
    | SelectRows(select: Select)
    | CountRows(database: string, table: string, filters: seq<Filter>)

  // ---- Scalars -----------------------------------------------------------------------------

  predicate IsLetter(c: char) {
    'a' <= c <= 'z' || 'A' <= c <= 'Z' || c == '_'
  }

  /** The pattern `[A-Za-z_][A-Za-z0-9_$-]{0,63}`, matched in full. */
  predicate IsIdentifier(s: string) {
    && 1 <= |s| <= 64
    && IsLetter(s[0])
    && forall i :: 0 <= i < |s| ==> IsLetter(s[i]) || Decimal.IsDigit(s[i]) || s[i] == '$' || s[i] == '-'
  }

  const LETTERS := [R.Range('A', 'Z'), R.Range('a', 'z'), R.Range('_', '_')]
  const NAME_CHARS := [R.Range('A', 'Z'), R.Range('a', 'z'), R.Range('0', '9'), R.Range('_', '_'), R.Range('$', '$'), R.Range('-', '-')]

  /** `[A-Za-z_][A-Za-z0-9_$-]{0,63}` */
  const IDENTIFIER := R.Then(R.Chars(LETTERS, false), R.Times(R.Chars(NAME_CHARS, false), 0, Some(63)))

  predicate IsNameChar(c: char) {
    IsLetter(c) || Decimal.IsDigit(c) || c == '$' || c == '-'
  }

  lemma NameClasses(c: char)
    ensures R.InClass(c, LETTERS) <==> IsLetter(c)
    ensures R.InClass(c, NAME_CHARS) <==> IsNameChar(c)
  {
    var i := if 'A' <= c <= 'Z' then 0 else if 'a' <= c <= 'z' then 1 else if c == '_' then 2 else 3;
    var j := if 'A' <= c <= 'Z' then 0 else if 'a' <= c <= 'z' then 1 else if '0' <= c <= '9' then 2
             else if c == '_' then 3 else if c == '$' then 4 else 5;
    if IsLetter(c) {
      assert R.InRange(c, LETTERS[i]);
    }
    if IsNameChar(c) {
      assert R.InRange(c, NAME_CHARS[j]);
    }
  }

  lemma IdentifierMeans(s: string)
    ensures IsIdentifier(s) <==> R.Matches(IDENTIFIER, s)
  {
    hide R.InClass, R.Matches, R.Repeats, IsLetter, IsNameChar;
    R.ThenClass(LETTERS, R.Times(R.Chars(NAME_CHARS, false), 0, Some(63)), s);
    if s != "" {
      forall c: char
        ensures R.InClass(c, LETTERS) <==> IsLetter(c)
        ensures R.InClass(c, NAME_CHARS) <==> IsNameChar(c)
        ensures IsLetter(c) ==> IsNameChar(c)
      {
        NameClasses(c);
        LettersAreNameChars(c);
      }
      R.RepeatedClass(NAME_CHARS, 0, Some(63), s[1..]);
      R.TimesIs(R.Chars(NAME_CHARS, false), 0, Some(63), s[1..]);
      NameParts(s);
    }
  }

  lemma LettersAreNameChars(c: char)
    ensures IsLetter(c) ==> IsNameChar(c)
  {
  }

  lemma NameParts(s: string)
    requires s != "" && forall c: char :: R.InClass(c, NAME_CHARS) <==> IsNameChar(c)
    ensures IsIdentifier(s) <==> IsLetter(s[0]) && |s[1..]| <= 63 && R.AllInClass(s[1..], NAME_CHARS)
  {
    hide R.InClass, IsLetter;
    assert forall i :: 0 < i < |s| ==> s[i] == s[1..][i - 1];
    assert forall i :: 0 <= i < |s[1..]| ==> s[1..][i] == s[i + 1];
    LettersAreNameChars(s[0]);
    if IsIdentifier(s) {
      forall i | 0 <= i < |s[1..]| ensures R.InClass(s[1..][i], NAME_CHARS) {
        assert IsNameChar(s[i + 1]);
      }
    }
    if IsLetter(s[0]) && |s[1..]| <= 63 && R.AllInClass(s[1..], NAME_CHARS) {
      forall i | 0 <= i < |s| ensures IsNameChar(s[i]) {
        if i > 0 {
          assert R.InClass(s[1..][i - 1], NAME_CHARS);
        }
      }
    }
  }

  /** A name as the pattern reads it. */
  ghost predicate IsName(s: string) {
    R.Matches(IDENTIFIER, s)
  }

  lemma NamesAreIdentifiers()
    ensures forall s :: IsName(s) <==> IsIdentifier(s)
  {
    hide IsIdentifier, R.Matches;
    forall s: string ensures IsName(s) <==> IsIdentifier(s) {
      IdentifierMeans(s);
    }
  }

  predicate IsScalar(value: Json) {
    match value
    case Str(s) => |s| <= MAX_VALUE_TEXT
    case Float(_, finite) => finite
    case Arr(_) => false
    case Obj(_) => false
    case _ => true
  }

  predicate IsCursor(value: Json) {
    match value
    case Str(s) => |s| <= MAX_VALUE_TEXT
    case Num(n) => -SAFE_INTEGER <= n <= SAFE_INTEGER
    case _ => false
  }

  function CursorText(value: Json): string
    requires IsCursor(value)
  {
    if value.Str? then value.s else Decimal.IntText(value.n)
  }

  function Identifier(value: Option<Json>, error: ErrorClass): (r: Result<string, ErrorClass>)
    ensures r.Ok? <==> value.Some? && value.value.Str? && IsIdentifier(value.value.s)
    ensures r.Ok? ==> value == Some(Str(r.value))
  {
    if value.Some? && value.value.Str? && IsIdentifier(value.value.s) then Ok(value.value.s) else Err(error)
  }

  // ---- Lists -------------------------------------------------------------------------------

  ghost predicate DenotesFilter(item: Json, filter: Filter) {
    && item.Obj?
    && Names(item.fields) == {"column", "value"}
    && Lookup(item.fields, "column") == Some(Str(filter.column))
    && Lookup(item.fields, "value") == Some(filter.value)
    && IsName(filter.column)
    && PlainValue(filter.value)
  }

  /** Null, a boolean, an integer, a finite number or at most 4096 characters. */
  ghost predicate PlainValue(value: Json) {
    value.Null? || value.Bool? || value.Num? || (value.Float? && value.finite) || (value.Str? && |value.s| <= 4096)
  }

  function FilterOf(item: Json): Result<Filter, ErrorClass> {
    if !item.Obj? || Names(item.fields) != {"column", "value"} then Err(InvalidFilters) else
    var column :- Identifier(Lookup(item.fields, "column"), InvalidFilterColumn);
    var value := Lookup(item.fields, "value").value;
    if IsScalar(value) then Ok(Filter(column, value)) else Err(InvalidFilterValue)
  }

  function FiltersOf(items: seq<Json>): Result<seq<Filter>, ErrorClass> {
    if items == [] then Ok([]) else
    var first :- FilterOf(items[0]);
    var rest :- FiltersOf(items[1..]);
    Ok([first] + rest)
  }

  function ColumnsOf(items: seq<Json>): Result<seq<string>, ErrorClass> {
    if items == [] then Ok([]) else
    var first :- Identifier(Some(items[0]), InvalidColumn);
    var rest :- ColumnsOf(items[1..]);
    Ok([first] + rest)
  }

  lemma FilterOfDenotes(item: Json, filter: Filter)
    ensures FilterOf(item) == Ok(filter) <==> DenotesFilter(item, filter)
  {
    hide IsName, IsIdentifier;
    NamesAreIdentifiers();
  }

  lemma {:induction false} FiltersOfDenotes(items: seq<Json>, filters: seq<Filter>)
    ensures FiltersOf(items) == Ok(filters)
       <==> |filters| == |items| && forall i :: 0 <= i < |items| ==> DenotesFilter(items[i], filters[i])
  {
    hide FilterOf, DenotesFilter;
    if items != [] && filters != [] {
      FiltersOfDenotes(items[1..], filters[1..]);
      assert filters == [filters[0]] + filters[1..];
      FilterOfDenotes(items[0], filters[0]);
      assert (forall i :: 0 <= i < |items| ==> |filters| == |items| && DenotesFilter(items[i], filters[i])) <==>
        (|filters| == |items| && DenotesFilter(items[0], filters[0]) &&
         forall i :: 0 <= i < |items[1..]| ==> DenotesFilter(items[1..][i], filters[1..][i])) by {
        if |filters| == |items| && forall i :: 0 <= i < |items[1..]| ==> DenotesFilter(items[1..][i], filters[1..][i]) {
          assert forall i :: 0 < i < |items| ==> items[i] == items[1..][i - 1] && filters[i] == filters[1..][i - 1];
        }
      }
    }
  }

  lemma {:induction false} ColumnsOfDenotes(items: seq<Json>, columns: seq<string>)
    ensures ColumnsOf(items) == Ok(columns)
       <==> |columns| == |items| && forall i :: 0 <= i < |items| ==> items[i] == Str(columns[i]) && IsName(columns[i])
  {
    hide IsName, IsIdentifier;
    NamesAreIdentifiers();
    if items != [] && columns != [] {
      ColumnsOfDenotes(items[1..], columns[1..]);
      assert columns == [columns[0]] + columns[1..];
      if |columns| == |items| {
        assert forall i :: 0 < i < |items| ==> items[i] == items[1..][i - 1] && columns[i] == columns[1..][i - 1];
      }
    }
  }

  /** `normalize_filters`: the first bad filter stops the loop. */
  method NormalizeFilters(fields: Fields) returns (r: Result<seq<Filter>, ErrorClass>)
    ensures r == FilterList(fields)
  {
    hide FilterOf, FiltersOf, Prepend;
    var value := Lookup(fields, "filters");
    if value.None? {
      return Ok([]);
    }
    if !value.value.Arr? || |value.value.items| > MAX_FILTERS {
      return Err(InvalidFilters);
    }
    var items := value.value.items;
    var normalized := [];
    var i := 0;
    PrependNothing(FiltersOf(items));
    assert items[0..] == items;
    while i < |items|
      invariant 0 <= i <= |items|
      invariant FiltersOf(items) == Prepend(normalized, FiltersOf(items[i..]))
    {
      var filter := FilterOf(items[i]);
      FiltersStep(items[i..], normalized);
      assert items[i..][1..] == items[i + 1..];
      if filter.Err? {
        return Err(filter.error);
      }
      normalized := normalized + [filter.value];
      i := i + 1;
    }
    assert items[i..] == [];
    PrependDone(normalized);
    return Ok(normalized);
  }

  lemma PrependDone(front: seq<Filter>)
    ensures Prepend(front, FiltersOf([])) == Ok(front)
  {
    assert front + [] == front;
  }

  lemma PrependNothing<T>(rest: Result<seq<T>, ErrorClass>)
    ensures Prepend([], rest) == rest
  {
    if rest.Ok? {
      assert [] + rest.value == rest.value;
    }
  }

  lemma FiltersStep(items: seq<Json>, front: seq<Filter>)
    requires items != []
    ensures Prepend(front, FiltersOf(items)) ==
      match FilterOf(items[0])
      case Err(error) => Err(error)
      case Ok(filter) => Prepend(front + [filter], FiltersOf(items[1..]))
  {
    if FilterOf(items[0]).Ok? && FiltersOf(items[1..]).Ok? {
      var filter, rest := FilterOf(items[0]).value, FiltersOf(items[1..]).value;
      assert front + ([filter] + rest) == (front + [filter]) + rest;
    }
  }

  ghost function Prepend<T>(front: seq<T>, rest: Result<seq<T>, ErrorClass>): Result<seq<T>, ErrorClass> {
    if rest.Ok? then Ok(front + rest.value) else rest
  }

  // ---- The whole request -------------------------------------------------------------------

  const ALL_FIELDS := {"operation", "database", "table", "columns", "filters", "orderBy", "limit", "after"}

  function FieldsOf(operation: string): set<string> {
    match operation
    case "list_databases" => {"operation"}
    case "list_tables" => {"operation", "database"}
    case "describe_table" => {"operation", "database", "table"}
    case "count_rows" => {"operation", "database", "table", "filters"}
    case _ => ALL_FIELDS
  }

  const OPERATIONS := {"list_databases", "list_tables", "describe_table", "select_rows", "count_rows"}

  function FilterList(fields: Fields): Result<seq<Filter>, ErrorClass> {
    match Lookup(fields, "filters")
    case None => Ok([])
    case Some(Arr(items)) => if |items| <= MAX_FILTERS then FiltersOf(items) else Err(InvalidFilters)
    case _ => Err(InvalidFilters)
  }

  predicate Distinct(names: seq<string>) {
    forall i, j :: 0 <= i < j < |names| ==> names[i] != names[j]
  }

  function ColumnList(fields: Fields): Result<seq<string>, ErrorClass> {
    match Lookup(fields, "columns")
    case Some(Arr(items)) =>
      if !(1 <= |items| <= MAX_COLUMNS) then Err(InvalidColumns) else
      var columns :- ColumnsOf(items);
      if Distinct(columns) then Ok(columns) else Err(InvalidColumns)
    case _ => Err(InvalidColumns)
  }

  function OrderOf(fields: Fields): Result<Option<Order>, ErrorClass> {
    match Lookup(fields, "orderBy")
    case None => Ok(None)
    case Some(Null) => Ok(None)
    case Some(Obj(order)) =>
      if Names(order) != {"column", "direction"} then Err(InvalidOrder) else
      var direction := Lookup(order, "direction").value;
      if direction.Arr? || direction.Obj? then Err(UnhashableValue) else
      if direction != Str("asc") && direction != Str("desc") then Err(InvalidOrder) else
      var column :- Identifier(Lookup(order, "column"), InvalidOrderColumn);
      Ok(Some(Order(column, direction == Str("asc"))))
    case _ => Err(InvalidOrder)
  }

  function AfterOf(fields: Fields, order: Option<Order>): Result<Option<string>, ErrorClass> {
    match Lookup(fields, "after")
    case None => Ok(None)
    case Some(value) =>
      if order.None? then Err(CursorRequiresOrder)
      else if IsCursor(value) then Ok(Some(CursorText(value)))
      else Err(InvalidCursor)
  }

  function LimitOf(fields: Fields): Result<nat, ErrorClass> {
    match Lookup(fields, "limit")
    case None => Ok(MAX_ROWS)
    case Some(Num(n)) => if 1 <= n <= MAX_ROWS then Ok(n) else Err(InvalidLimit)
    case _ => Err(InvalidLimit)
  }

  /** The five parts of a selection, the first failure winning. */
  function Assemble(database: string, table: string,
                    columns: Result<seq<string>, ErrorClass>, filters: Result<seq<Filter>, ErrorClass>,
                    order: Result<Option<Order>, ErrorClass>, after: Result<Option<string>, ErrorClass>,
                    limit: Result<nat, ErrorClass>): Result<Select, ErrorClass>
  {
    var columns :- columns;
    var filters :- filters;
    var order :- order;
    var after :- after;
    var limit :- limit;
    Ok(Select(database, table, columns, filters, order, after, limit))
  }

  function SelectOf(fields: Fields, database: string, table: string): Result<Select, ErrorClass> {
    var order := OrderOf(fields);
    Assemble(database, table, ColumnList(fields), FilterList(fields), order,
      AfterOf(fields, if order.Ok? then order.value else None), LimitOf(fields))
  }

  /** `normalize_request`: the guards in source order, so the first failing one names the error. */
  function Normalize(value: Json): Result<Request, ErrorClass> {
    if !value.Obj? || !(Names(value.fields) <= ALL_FIELDS) then Err(InvalidRequest) else
    var fields := value.fields;
    var named := Lookup(fields, "operation");
    if named.Some? && (named.value.Arr? || named.value.Obj?) then Err(UnhashableValue) else
    if named.None? || !named.value.Str? || named.value.s !in OPERATIONS then Err(InvalidOperation) else
    var operation := named.value.s;
    if !(Names(fields) <= FieldsOf(operation)) then Err(InvalidRequest) else
    if operation == "list_databases" then Ok(ListDatabases) else
    var database :- Identifier(Lookup(fields, "database"), InvalidDatabase);
    if operation == "list_tables" then Ok(ListTables(database)) else
    var table :- Identifier(Lookup(fields, "table"), InvalidTable);
    if operation == "describe_table" then Ok(DescribeTable(database, table)) else
    if operation == "count_rows" then
      var filters :- FilterList(fields);
      Ok(CountRows(database, table, filters))
    else
      var select :- SelectOf(fields, database, table);
      Ok(SelectRows(select))
  }

  function RenderFilter(filter: Filter): Json {
    Obj([Field("column", Str(filter.column)), Field("value", filter.value)])
  }

  function RenderColumns(columns: seq<string>): Json {
    Arr(seq(|columns|, i requires 0 <= i < |columns| => Str(columns[i])))
  }

  function RenderFilters(filters: seq<Filter>): Json {
    Arr(seq(|filters|, i requires 0 <= i < |filters| => RenderFilter(filters[i])))
  }

  function RenderOrder(order: Order): Json {
    Obj([Field("column", Str(order.column)), Field("direction", Str(if order.ascending then "asc" else "desc"))])
  }

  // ---- What a request means, without an order of checks --------------------------------------

  ghost predicate NameAt(fields: Fields, field: string, name: string) {
    Lookup(fields, field) == Some(Str(name)) && IsName(name)
  }

  ghost predicate DenotesFilters(fields: Fields, filters: seq<Filter>) {
    var value := Lookup(fields, "filters");
    if value.None? then filters == [] else
    && value.value.Arr?
    && |value.value.items| == |filters| <= 20
    && forall i :: 0 <= i < |filters| ==> DenotesFilter(value.value.items[i], filters[i])
  }

  ghost predicate DenotesColumns(fields: Fields, columns: seq<string>) {
    && Lookup(fields, "columns") == Some(RenderColumns(columns))
    && 1 <= |columns| <= 50
    && (forall i, j :: 0 <= i < j < |columns| ==> columns[i] != columns[j])
    && forall i :: 0 <= i < |columns| ==> IsName(columns[i])
  }

  ghost predicate DenotesOrder(fields: Fields, order: Option<Order>) {
    var value := Lookup(fields, "orderBy");
    match order
    case None => value == None || value == Some(Null)
    case Some(Order(column, ascending)) =>
      && value.Some? && value.value.Obj?
      && Names(value.value.fields) == {"column", "direction"}
      && NameAt(value.value.fields, "column", column)
      && Lookup(value.value.fields, "direction") == Some(Str(if ascending then "asc" else "desc"))
  }

  ghost predicate DenotesAfter(fields: Fields, after: Option<string>) {
    match after
    case None => "after" !in Names(fields)
    case Some(text) =>
      var value := Lookup(fields, "after");
      || (value == Some(Str(text)) && |text| <= 4096)
      || exists n :: value == Some(Num(n)) && -9_007_199_254_740_991 <= n <= 9_007_199_254_740_991 && text == Decimal.IntText(n)
  }

  ghost predicate DenotesLimit(fields: Fields, limit: nat) {
    && 1 <= limit <= 100
    && (Lookup(fields, "limit") == Some(Num(limit)) || ("limit" !in Names(fields) && limit == 100))
  }

  ghost predicate DenotesSelect(fields: Fields, select: Select) {
    && NameAt(fields, "database", select.database)
    && NameAt(fields, "table", select.table)
    && DenotesColumns(fields, select.columns)
    && DenotesFilters(fields, select.filters)
    && DenotesOrder(fields, select.order)
    && DenotesAfter(fields, select.after)
    && (select.after.Some? ==> select.order.Some?)
    && DenotesLimit(fields, select.limit)
  }

  ghost predicate Denotes(value: Json, request: Request) {
    && value.Obj?
    && var operation := match request
         case ListDatabases => "list_databases"
         case ListTables(_) => "list_tables"
         case DescribeTable(_, _) => "describe_table"
         case SelectRows(_) => "select_rows"
         case CountRows(_, _, _) => "count_rows";
    && Lookup(value.fields, "operation") == Some(Str(operation))
    && match request
       case ListDatabases => Names(value.fields) <= {"operation"}
       case ListTables(database) => Names(value.fields) <= {"operation", "database"} && NameAt(value.fields, "database", database)
       case DescribeTable(database, table) =>
         && Names(value.fields) <= {"operation", "database", "table"}
         && NameAt(value.fields, "database", database) && NameAt(value.fields, "table", table)
       case SelectRows(select) =>
         && Names(value.fields) <= {"operation", "database", "table", "columns", "filters", "orderBy", "limit", "after"}
         && DenotesSelect(value.fields, select)
       case CountRows(database, table, filters) =>
         && Names(value.fields) <= {"operation", "database", "table", "filters"}
         && NameAt(value.fields, "database", database)
         && NameAt(value.fields, "table", table)
         && DenotesFilters(value.fields, filters)
  }

  lemma FilterListDenotes(fields: Fields, filters: seq<Filter>)
    ensures FilterList(fields) == Ok(filters) <==> DenotesFilters(fields, filters)
  {
    var value := Lookup(fields, "filters");
    if value.Some? && value.value.Arr? {
      FiltersOfDenotes(value.value.items, filters);
    }
  }

  lemma ColumnListDenotes(fields: Fields, columns: seq<string>)
    ensures ColumnList(fields) == Ok(columns) <==> DenotesColumns(fields, columns)
  {
    hide IsName, IsIdentifier;
    var value := Lookup(fields, "columns");
    if value.Some? && value.value.Arr? {
      var items := value.value.items;
      ColumnsOfDenotes(items, columns);
      if |items| == |columns| && forall i :: 0 <= i < |items| ==> items[i] == Str(columns[i]) {
        assert Arr(items) == RenderColumns(columns);
      }
    }
  }

  lemma OrderDenotes(fields: Fields, order: Option<Order>)
    ensures OrderOf(fields) == Ok(order) <==> DenotesOrder(fields, order)
  {
    hide IsName, IsIdentifier;
    NamesAreIdentifiers();
  }

  lemma AfterDenotes(fields: Fields, order: Option<Order>, after: Option<string>)
    ensures AfterOf(fields, order) == Ok(after)
       <==> DenotesAfter(fields, after) && (after.Some? ==> order.Some?)
  {
  }

  lemma SelectOfDenotes(fields: Fields, select: Select)
    requires NameAt(fields, "database", select.database) && NameAt(fields, "table", select.table)
    ensures SelectOf(fields, select.database, select.table) == Ok(select) <==> DenotesSelect(fields, select)
  {
    ColumnListDenotes(fields, select.columns);
    FilterListDenotes(fields, select.filters);
    OrderDenotes(fields, select.order);
    AfterDenotes(fields, select.order, select.after);
    LimitDenotes(fields, select.limit);
  }

  lemma LimitDenotes(fields: Fields, limit: nat)
    ensures LimitOf(fields) == Ok(limit) <==> DenotesLimit(fields, limit)
  {
  }

  /** A request is accepted exactly when it denotes one, and then as that one. */
  lemma NormalizeExact(value: Json, request: Request)
    ensures Normalize(value) == Ok(request) <==> Denotes(value, request)
  {
    hide Lookup, Names, FilterList, ColumnList, OrderOf, AfterOf, DenotesFilters, DenotesColumns, DenotesOrder, DenotesAfter, IsName, IsIdentifier;
    NamesAreIdentifiers();
    if value.Obj? {
      match request
      case CountRows(_, _, filters) => FilterListDenotes(value.fields, filters);
      case SelectRows(select) =>
        if NameAt(value.fields, "database", select.database) && NameAt(value.fields, "table", select.table) {
          SelectOfDenotes(value.fields, select);
        }
      case _ =>
    }
  }

  // ---- Refusals --------------------------------------------------------------------------------

  /** A filter whose column is no name, and one whose value is none that can be compared with. */
  ghost predicate BadFilter(item: Json, error: ErrorClass) {
    && item.Obj? && Names(item.fields) == {"column", "value"}
    && (error.InvalidFilterColumn? ==> forall name :: !NameAt(item.fields, "column", name))
    && (error.InvalidFilterValue? ==> forall v :: Lookup(item.fields, "value") == Some(v) ==> !PlainValue(v))
  }

  /** The part of the request that an error names is at fault: it denotes nothing. */
  ghost predicate Faulty(fields: Fields, error: ErrorClass) {
    match error
    case InvalidDatabase => forall name :: !NameAt(fields, "database", name)
    case InvalidTable => forall name :: !NameAt(fields, "table", name)
    case InvalidColumns => forall columns :: !DenotesColumns(fields, columns)
    case InvalidColumn =>
      exists items: seq<Json>, i :: 0 <= i < |items| && Lookup(fields, "columns") == Some(Arr(items)) && !(items[i].Str? && IsName(items[i].s))
    case InvalidFilters => forall filters :: !DenotesFilters(fields, filters)
    case InvalidFilterColumn =>
      exists items: seq<Json>, i :: 0 <= i < |items| && Lookup(fields, "filters") == Some(Arr(items)) && BadFilter(items[i], error)
    case InvalidFilterValue =>
      exists items: seq<Json>, i :: 0 <= i < |items| && Lookup(fields, "filters") == Some(Arr(items)) && BadFilter(items[i], error)
    case InvalidOrder => forall order :: !DenotesOrder(fields, order)
    case InvalidOrderColumn => forall order :: !DenotesOrder(fields, order)
    case CursorRequiresOrder => "after" in Names(fields) && DenotesOrder(fields, None)
    case InvalidCursor => forall after :: !DenotesAfter(fields, after)
    case InvalidLimit => forall limit :: !DenotesLimit(fields, limit)
    case InvalidOperation =>
      Lookup(fields, "operation") !in
        {Some(Str("list_databases")), Some(Str("list_tables")), Some(Str("describe_table")), Some(Str("select_rows")), Some(Str("count_rows"))}
    case UnhashableValue =>
      || (exists v :: Lookup(fields, "operation") == Some(v) && (v.Arr? || v.Obj?))
      || (exists order, v :: Lookup(fields, "orderBy") == Some(Obj(order)) && Lookup(order, "direction") == Some(v) && (v.Arr? || v.Obj?))
    case _ => false
  }

  const COLUMN_ERRORS: set<ErrorClass> := {InvalidColumns, InvalidColumn}
  const FILTER_ERRORS: set<ErrorClass> := {InvalidFilters, InvalidFilterColumn, InvalidFilterValue}
  const ORDER_ERRORS: set<ErrorClass> := {InvalidOrder, InvalidOrderColumn, UnhashableValue}
  const CURSOR_ERRORS: set<ErrorClass> := {CursorRequiresOrder, InvalidCursor}

  /** Of a selection, the parts that are looked at before the faulty one are in order. */
  ghost predicate EarlierPartsFine(fields: Fields, error: ErrorClass) {
    && (error !in COLUMN_ERRORS ==> exists columns :: DenotesColumns(fields, columns))
    && (error !in COLUMN_ERRORS + FILTER_ERRORS ==> exists filters :: DenotesFilters(fields, filters))
    && (error !in COLUMN_ERRORS + FILTER_ERRORS + ORDER_ERRORS ==> exists order :: DenotesOrder(fields, order))
    && (error.InvalidLimit? ==> exists after :: DenotesAfter(fields, after))
  }

  lemma {:induction false} FirstBadColumn(items: seq<Json>)
    ensures ColumnsOf(items).Err? ==> ColumnsOf(items).error == InvalidColumn
    ensures ColumnsOf(items).Err? ==> exists i :: 0 <= i < |items| && !(items[i].Str? && IsName(items[i].s))
  {
    hide IsName, IsIdentifier;
    NamesAreIdentifiers();
    if items != [] && Identifier(Some(items[0]), InvalidColumn).Ok? {
      FirstBadColumn(items[1..]);
      if i :| 0 <= i < |items[1..]| && !(items[1..][i].Str? && IsName(items[1..][i].s)) {
        assert items[i + 1] == items[1..][i];
      }
    }
  }

  lemma {:induction false} FirstBadFilter(items: seq<Json>)
    ensures FiltersOf(items).Err? ==>
      var error := FiltersOf(items).error;
      && (error.InvalidFilters? || error.InvalidFilterColumn? || error.InvalidFilterValue?)
      && (!error.InvalidFilters? ==> exists i :: 0 <= i < |items| && BadFilter(items[i], error))
  {
    hide BadFilter, FilterOf;
    if items != [] {
      BadFilterIs(items[0]);
      if FilterOf(items[0]).Ok? {
        FirstBadFilter(items[1..]);
        if FiltersOf(items[1..]).Err? && !FiltersOf(items[1..]).error.InvalidFilters? {
          var i :| 0 <= i < |items[1..]| && BadFilter(items[1..][i], FiltersOf(items[1..]).error);
          assert items[i + 1] == items[1..][i];
        }
      }
    }
  }

  lemma BadFilterIs(item: Json)
    ensures FilterOf(item).Err? ==>
      var error := FilterOf(item).error;
      && (error.InvalidFilters? || error.InvalidFilterColumn? || error.InvalidFilterValue?)
      && (!error.InvalidFilters? ==> BadFilter(item, error))
  {
    hide IsName, IsIdentifier;
    NamesAreIdentifiers();
  }

  lemma ColumnsFault(fields: Fields)
    ensures ColumnList(fields).Err? ==> Faulty(fields, ColumnList(fields).error) && ColumnList(fields).error in COLUMN_ERRORS
  {
    hide IsName, IsIdentifier, DenotesColumns, ColumnsOf;
    forall columns ensures ColumnList(fields) == Ok(columns) <==> DenotesColumns(fields, columns) {
      ColumnListDenotes(fields, columns);
    }
    var value := Lookup(fields, "columns");
    if value.Some? && value.value.Arr? {
      FirstBadColumn(value.value.items);
    }
  }

  lemma FiltersFault(fields: Fields)
    ensures FilterList(fields).Err? ==> Faulty(fields, FilterList(fields).error) && FilterList(fields).error in FILTER_ERRORS
  {
    hide IsName, IsIdentifier, DenotesFilters, FiltersOf, BadFilter;
    forall filters ensures FilterList(fields) == Ok(filters) <==> DenotesFilters(fields, filters) {
      FilterListDenotes(fields, filters);
    }
    var value := Lookup(fields, "filters");
    if value.Some? && value.value.Arr? {
      FirstBadFilter(value.value.items);
    }
  }

  lemma OrderFault(fields: Fields)
    ensures OrderOf(fields).Err? ==> Faulty(fields, OrderOf(fields).error) && OrderOf(fields).error in ORDER_ERRORS
  {
    hide IsName, IsIdentifier, DenotesOrder;
    forall order ensures OrderOf(fields) == Ok(order) <==> DenotesOrder(fields, order) {
      OrderDenotes(fields, order);
    }
  }

  lemma AfterFault(fields: Fields, order: Option<Order>)
    requires OrderOf(fields) == Ok(order)
    ensures AfterOf(fields, order).Err? ==> Faulty(fields, AfterOf(fields, order).error) && AfterOf(fields, order).error in CURSOR_ERRORS
  {
    hide DenotesAfter, DenotesOrder, OrderOf;
    OrderDenotes(fields, order);
    forall after ensures AfterOf(fields, order) == Ok(after) <==> DenotesAfter(fields, after) && (after.Some? ==> order.Some?) {
      AfterDenotes(fields, order, after);
    }
  }

  lemma LimitFault(fields: Fields)
    ensures LimitOf(fields).Err? ==> Faulty(fields, LimitOf(fields).error) && LimitOf(fields).error == InvalidLimit
  {
    hide DenotesLimit;
    forall limit: nat ensures LimitOf(fields) == Ok(limit) <==> DenotesLimit(fields, limit) {
      LimitDenotes(fields, limit);
    }
  }

  lemma NameFault(fields: Fields, field: string, error: ErrorClass)
    requires (field == "database" && error == InvalidDatabase) || (field == "table" && error == InvalidTable)
    ensures Identifier(Lookup(fields, field), error).Err? ==>
      Identifier(Lookup(fields, field), error).error == error && Faulty(fields, error)
  {
    hide IsName, IsIdentifier;
    NamesAreIdentifiers();
  }

  lemma SelectFault(fields: Fields, database: string, table: string)
    ensures SelectOf(fields, database, table).Err? ==>
      Faulty(fields, SelectOf(fields, database, table).error) && EarlierPartsFine(fields, SelectOf(fields, database, table).error)
      && SelectOf(fields, database, table).error in COLUMN_ERRORS + FILTER_ERRORS + ORDER_ERRORS + CURSOR_ERRORS + {InvalidLimit}
  {
    hide Faulty, ColumnList, FilterList, OrderOf, AfterOf, LimitOf, DenotesColumns, DenotesFilters, DenotesOrder, DenotesAfter;
    ColumnsFault(fields);
    FiltersFault(fields);
    OrderFault(fields);
    LimitFault(fields);
    if ColumnList(fields).Ok? {
      ColumnListDenotes(fields, ColumnList(fields).value);
    }
    if FilterList(fields).Ok? {
      FilterListDenotes(fields, FilterList(fields).value);
    }
    if OrderOf(fields).Ok? {
      var order := OrderOf(fields).value;
      OrderDenotes(fields, order);
      AfterFault(fields, order);
      if AfterOf(fields, order).Ok? {
        AfterDenotes(fields, order, AfterOf(fields, order).value);
      }
    }
  }

  lemma OperationFault(fields: Fields)
    ensures var named := Lookup(fields, "operation");
      && (named.Some? && (named.value.Arr? || named.value.Obj?) ==> Faulty(fields, UnhashableValue))
      && (named.None? || !named.value.Str? || named.value.s !in OPERATIONS ==> Faulty(fields, InvalidOperation))
  {
  }

  lemma NamesFine(fields: Fields, database: string)
    ensures Identifier(Lookup(fields, "database"), InvalidDatabase) == Ok(database) ==> NameAt(fields, "database", database)
    ensures Identifier(Lookup(fields, "table"), InvalidTable) == Ok(database) ==> NameAt(fields, "table", database)
  {
    hide IsName, IsIdentifier;
    NamesAreIdentifiers();
  }

  /** A refusal is never without ground: its error class names the first part of the request, in the order in which
      they are looked at, that denotes nothing; or it says that the request is no object, or has fields that the
      operation does not take. */
  lemma RefusedForCause(value: Json)
    requires Normalize(value).Err?
    ensures var error := Normalize(value).error;
      if error.InvalidRequest?
      then !value.Obj? || forall request :: !Denotes(value, request)
      else
        && value.Obj? && Faulty(value.fields, error)
        && (error.InvalidTable? || error in COLUMN_ERRORS + FILTER_ERRORS + CURSOR_ERRORS + {InvalidLimit} ==>
              exists database :: NameAt(value.fields, "database", database))
        && (error in COLUMN_ERRORS + FILTER_ERRORS + CURSOR_ERRORS + {InvalidLimit} ==>
              exists table :: NameAt(value.fields, "table", table))
        && (error in COLUMN_ERRORS + FILTER_ERRORS + CURSOR_ERRORS + {InvalidLimit} ==>
              Lookup(value.fields, "operation") == Some(Str("select_rows")) ==> EarlierPartsFine(value.fields, error))
  {
    hide Faulty, Denotes, Lookup, Identifier, FilterList, SelectOf, Names, FieldsOf, OPERATIONS, NameAt, EarlierPartsFine;
    forall request ensures Normalize(value) == Ok(request) <==> Denotes(value, request) {
      NormalizeExact(value, request);
    }
    if value.Obj? {
      NameFault(value.fields, "database", InvalidDatabase);
      NameFault(value.fields, "table", InvalidTable);
      OperationFault(value.fields);
      FiltersFault(value.fields);
      forall name ensures
        && (Identifier(Lookup(value.fields, "database"), InvalidDatabase) == Ok(name) ==> NameAt(value.fields, "database", name))
        && (Identifier(Lookup(value.fields, "table"), InvalidTable) == Ok(name) ==> NameAt(value.fields, "table", name))
      {
        NamesFine(value.fields, name);
      }
      forall database, table
        ensures var select := SelectOf(value.fields, database, table);
          select.Err? ==>
            && Faulty(value.fields, select.error) && EarlierPartsFine(value.fields, select.error)
            && select.error in COLUMN_ERRORS + FILTER_ERRORS + ORDER_ERRORS + CURSOR_ERRORS + {InvalidLimit}
      {
        SelectFault(value.fields, database, table);
      }
      NoPlainInvalidRequest(value.fields);
    }
  }

  lemma NoPlainInvalidRequest(fields: Fields)
    ensures !Faulty(fields, InvalidRequest)
  {
  }

  // ---- Round trip ----------------------------------------------------------------------------

  ghost predicate ValidFilters(filters: seq<Filter>) {
    |filters| <= MAX_FILTERS && forall f :: f in filters ==> IsIdentifier(f.column) && IsScalar(f.value)
  }

  ghost predicate ValidSelect(select: Select) {
    && IsIdentifier(select.database) && IsIdentifier(select.table)
    && 1 <= |select.columns| <= MAX_COLUMNS && Distinct(select.columns)
    && (forall c :: c in select.columns ==> IsIdentifier(c))
    && ValidFilters(select.filters)
    && (select.order.Some? ==> IsIdentifier(select.order.value.column))
    && (select.after.Some? ==> select.order.Some? && |select.after.value| <= MAX_VALUE_TEXT)
    && 1 <= select.limit <= MAX_ROWS
  }

  function RenderBase(select: Select): Fields {
    [ Field("operation", Str("select_rows")),
      Field("database", Str(select.database)),
      Field("table", Str(select.table)),
      Field("columns", RenderColumns(select.columns)),
      Field("filters", RenderFilters(select.filters)),
      Field("limit", Num(select.limit)) ]
  }

  function WithField(fields: Fields, name: string, value: Option<Json>): Fields {
    if value.None? then fields else fields + [Field(name, value.value)]
  }

  /** The JSON a client sends for a request: the form in which `nextCursor` comes back as `after`. */
  function RenderSelect(select: Select): Json {
    var ordered := WithField(RenderBase(select), "orderBy",
      if select.order.None? then None else Some(RenderOrder(select.order.value)));
    Obj(WithField(ordered, "after", if select.after.None? then None else Some(Str(select.after.value))))
  }

  predicate DistinctNames(fields: Fields) {
    forall i, j :: 0 <= i < j < |fields| ==> fields[i].name != fields[j].name
  }

  lemma {:induction false} LookupAt(fields: Fields, i: nat)
    requires DistinctNames(fields) && i < |fields|
    ensures Lookup(fields, fields[i].name) == Some(fields[i].value)
  {
    if i < |fields| - 1 {
      LookupAt(fields[..|fields| - 1], i);
    }
  }

  lemma RenderedFilter(filter: Filter)
    requires IsIdentifier(filter.column) && IsScalar(filter.value)
    ensures DenotesFilter(RenderFilter(filter), filter)
  {
    hide IsName, IsIdentifier;
    NamesAreIdentifiers();
    var fields := RenderFilter(filter).fields;
    LookupAt(fields, 0);
    LookupAt(fields, 1);
    assert Names(fields) == {fields[0].name, fields[1].name};
  }

  lemma RenderedOrder(order: Order)
    requires IsIdentifier(order.column)
    ensures var fields := RenderOrder(order).fields;
      && Names(fields) == {"column", "direction"}
      && NameAt(fields, "column", order.column)
      && Lookup(fields, "direction") == Some(Str(if order.ascending then "asc" else "desc"))
  {
    hide IsName, IsIdentifier;
    NamesAreIdentifiers();
    var fields := RenderOrder(order).fields;
    LookupAt(fields, 0);
    LookupAt(fields, 1);
    assert Names(fields) == {fields[0].name, fields[1].name};
  }

  lemma WithFieldLookup(fields: Fields, name: string, value: Option<Json>, other: string)
    requires name !in Names(fields)
    ensures Lookup(WithField(fields, name, value), other) == if other == name then value else Lookup(fields, other)
    ensures Names(WithField(fields, name, value)) == Names(fields) + (if value.None? then {} else {name})
  {
    if value.Some? {
      var last := Field(name, value.value);
      var all := fields + [last];
      assert all[..|all| - 1] == fields;
      forall n | n in Names(fields) ensures n in Names(all) {
        var i :| 0 <= i < |fields| && fields[i].name == n;
        assert all[i].name == n;
      }
      assert all[|all| - 1].name == name;
    }
  }

  lemma BaseNames(select: Select)
    ensures Names(RenderBase(select)) == {"operation", "database", "table", "columns", "filters", "limit"}
  {
    var fields := RenderBase(select);
    assert Names(fields) == {fields[0].name, fields[1].name, fields[2].name, fields[3].name, fields[4].name, fields[5].name};
  }

  lemma TwoFields(base: Fields, order: Option<Json>, after: Option<Json>, name: string)
    requires "orderBy" !in Names(base) && "after" !in Names(base)
    ensures var fields := WithField(WithField(base, "orderBy", order), "after", after);
      && Names(fields) <= Names(base) + {"orderBy", "after"}
      && Lookup(fields, name) == if name == "after" then after else if name == "orderBy" then order else Lookup(base, name)
  {
    WithFieldLookup(base, "orderBy", order, name);
    WithFieldLookup(WithField(base, "orderBy", order), "after", after, name);
  }

  lemma RenderedFields(select: Select, name: string)
    ensures var fields := RenderSelect(select).fields;
      && Names(fields) <= ALL_FIELDS
      && Lookup(fields, name) ==
        if name == "after" then (if select.after.None? then None else Some(Str(select.after.value)))
        else if name == "orderBy" then (if select.order.None? then None else Some(RenderOrder(select.order.value)))
        else Lookup(RenderBase(select), name)
  {
    BaseNames(select);
    TwoFields(RenderBase(select),
      if select.order.None? then None else Some(RenderOrder(select.order.value)),
      if select.after.None? then None else Some(Str(select.after.value)),
      name);
  }

  lemma RenderedBase(select: Select, i: nat)
    requires i < 6
    ensures Lookup(RenderSelect(select).fields, RenderBase(select)[i].name) == Some(RenderBase(select)[i].value)
  {
    hide Lookup, Names, RenderSelect, RenderColumns, RenderFilters;
    BaseDistinct(select);
    LookupAt(RenderBase(select), i);
    RenderedFields(select, RenderBase(select)[i].name);
  }

  lemma BaseDistinct(select: Select)
    ensures var fields := RenderBase(select);
      && |fields| == 6
      && (forall i, j :: 0 <= i < j < 6 ==> fields[i].name != fields[j].name)
      && forall i :: 0 <= i < 6 ==> fields[i].name != "after" && fields[i].name != "orderBy"
  {
    hide RenderColumns, RenderFilters;
  }

  lemma RenderedDenotes(select: Select)
    requires ValidSelect(select)
    ensures DenotesColumns(RenderSelect(select).fields, select.columns)
    ensures DenotesFilters(RenderSelect(select).fields, select.filters)
    ensures DenotesOrder(RenderSelect(select).fields, select.order)
    ensures DenotesAfter(RenderSelect(select).fields, select.after)
    ensures DenotesLimit(RenderSelect(select).fields, select.limit)
  {
    hide RenderSelect, Lookup, Names, DenotesFilter, IsName, IsIdentifier, IsScalar;
    NamesAreIdentifiers();
    RenderedBase(select, 3);
    RenderedBase(select, 4);
    RenderedBase(select, 5);
    RenderedFields(select, "orderBy");
    RenderedFields(select, "after");
    if select.order.Some? {
      RenderedOrder(select.order.value);
    }
    forall i | 0 <= i < |select.filters|
      ensures DenotesFilter(RenderFilters(select.filters).items[i], select.filters[i])
    {
      RenderedFilter(select.filters[i]);
    }
  }

  lemma RenderedNames(select: Select)
    ensures var fields := RenderSelect(select).fields;
      && Names(fields) <= ALL_FIELDS
      && Lookup(fields, "operation") == Some(Str("select_rows"))
      && Lookup(fields, "database") == Some(Str(select.database))
      && Lookup(fields, "table") == Some(Str(select.table))
  {
    RenderedFields(select, "operation");
    RenderedBase(select, 0);
    RenderedBase(select, 1);
    RenderedBase(select, 2);
  }

  /** Every valid request survives being sent: rendering and normalising gives it back. */
  lemma SelectRoundTrip(select: Select)
    requires ValidSelect(select)
    ensures Normalize(RenderSelect(select)) == Ok(SelectRows(select))
  {
    hide IsName, IsIdentifier;
    NamesAreIdentifiers();
    var value := RenderSelect(select);
    RenderedNames(select);
    RenderedDenotes(select);
    DenotesWhole(value, select);
    NormalizeExact(value, SelectRows(select));
  }

  lemma DenotesWhole(value: Json, select: Select)
    requires value.Obj? && Names(value.fields) <= ALL_FIELDS
    requires Lookup(value.fields, "operation") == Some(Str("select_rows"))
    requires DenotesSelect(value.fields, select)
    ensures Denotes(value, SelectRows(select))
  {
  }

  lemma DenotedFiltersAreValid(fields: Fields, filters: seq<Filter>)
    requires DenotesFilters(fields, filters)
    ensures ValidFilters(filters)
  {
    hide IsName, IsIdentifier, Lookup, Names;
    NamesAreIdentifiers();
    forall f | f in filters ensures IsIdentifier(f.column) && IsScalar(f.value) {
      var i :| 0 <= i < |filters| && filters[i] == f;
      assert DenotesFilter(Lookup(fields, "filters").value.items[i], f);
    }
  }

  lemma DenotedAfterIsShort(fields: Fields, text: string)
    requires DenotesAfter(fields, Some(text))
    ensures |text| <= MAX_VALUE_TEXT
  {
    var value := Lookup(fields, "after").value;
    CursorTextLength(value);
  }

  lemma DenotedIsValid(fields: Fields, select: Select)
    requires DenotesSelect(fields, select)
    ensures ValidSelect(select)
  {
    hide IsName, IsIdentifier, Lookup, Names, DenotesFilters, DenotesAfter, ValidFilters;
    NamesAreIdentifiers();
    DenotedFiltersAreValid(fields, select.filters);
    if select.after.Some? {
      DenotedAfterIsShort(fields, select.after.value);
    }
  }

  /** Only valid requests leave `normalize_request`. */
  lemma NormalizedIsValid(value: Json, select: Select)
    requires Normalize(value) == Ok(SelectRows(select))
    ensures ValidSelect(select)
  {
    hide Normalize, DenotesSelect, ValidSelect;
    NormalizeExact(value, SelectRows(select));
    DenotedIsValid(value.fields, select);
  }

  lemma CursorTextLength(value: Json)
    requires IsCursor(value)
    ensures |CursorText(value)| <= MAX_VALUE_TEXT
  {
    if value.Num? {
      Decimal.SixtyFourBits();
      Decimal.IntRoundTrip(value.n);
    }
  }
}
