/** Parameterised statements, the database that answers them, and the compiler from requests. */
module QuerySql {
  import opened Basics
  import opened QueryRequest
  import J = JsonText
  import Decimal

  newtype byte = b: int | 0 <= b < 256

  // ---- Values and tables ---------------------------------------------------------------------

  /** What a driver returns: `Printed` is a decimal, date or time, `Foreign` any other Python object. */
  datatype Cell =
    | Null
    | Bool(b: bool)
    | Int(i: int)
    | Float(text: string, finite: bool)
    | Text(s: string)
    | Bytes(bytes: seq<byte>)
    | Printed(text: string)
    | Foreign(text: string)

  type Row = map<string, Cell>
  type Table = seq<Row>

  function Get(row: Row, column: string): Cell {
    if column in row then row[column] else Null
  }

  /** `rank` is the server's ordering: any countable collation order embeds in the reals, and two
      keys a collation equates share a rank. `same` is its null-safe equality. */
  datatype Engine = Engine(rank: Cell -> real, same: (Cell, Cell) -> bool)

  datatype ColumnMeta = ColumnMeta(name: string, dataType: string, nullable: string, key: string)

  const TEXT_TYPES := {"char", "varchar", "tinytext", "text", "mediumtext", "longtext", "enum", "set", "json"}
  const INTEGER_TYPES := {"tinyint", "smallint", "mediumint", "int", "integer", "bigint"}
  const STRING_KEY_TYPES := {"char", "varchar"}
  const BINARY_TYPES := {
    "binary", "varbinary", "tinyblob", "blob", "mediumblob", "longblob", "geometry", "point", "linestring",
    "polygon", "multipoint", "multilinestring", "multipolygon", "geometrycollection"}

  function LowerChar(c: char): char {
    if 'A' <= c <= 'Z' then c - 'A' + 'a' else c
  }

  function Lower(s: string): string {
    seq(|s|, i requires 0 <= i < |s| => LowerChar(s[i]))
  }

  /** The `types` dictionary: a repeated name keeps its last type. */
  function TypeOf(metadata: seq<ColumnMeta>, column: string): Option<string> {
    if metadata == [] then None
    else if metadata[|metadata| - 1].name == column then Some(Lower(metadata[|metadata| - 1].dataType))
    else TypeOf(metadata[..|metadata| - 1], column)
  }

  function PrimaryColumns(metadata: seq<ColumnMeta>): (r: seq<string>)
    ensures forall m :: m in metadata && m.key == "PRI" ==> m.name in r
    ensures forall c :: c in r ==> exists m :: m in metadata && m.key == "PRI" && m.name == c
  {
    if metadata == [] then []
    else (if metadata[0].key == "PRI" then [metadata[0].name] else []) + PrimaryColumns(metadata[1..])
  }

  /** `keyset_column`: the first metadata row of that name decides. */
  function KeysetColumn(metadata: seq<ColumnMeta>, column: string): bool {
    KeysetIn(metadata, column, PrimaryColumns(metadata))
  }

  function KeysetIn(rows: seq<ColumnMeta>, column: string, primary: seq<string>): bool {
    if rows == [] then false
    else if rows[0].name != column then KeysetIn(rows[1..], column, primary)
    else IsKeyRow(rows[0], primary)
  }

  // ---- What the information schema promises about a table ---------------------------------------

  ghost predicate FitsType(dataType: string, cell: Cell) {
    && (dataType in TEXT_TYPES ==> cell.Null? || cell.Text?)
    && (dataType in BINARY_TYPES ==> cell.Null? || cell.Bytes?)
    && (dataType in INTEGER_TYPES ==> cell.Null? || (cell.Int? && -0x8000_0000_0000_0000 <= cell.i < 0x1_0000_0000_0000_0000))
  }

  ghost predicate Differ(engine: Engine, a: Row, b: Row, column: string) {
    engine.rank(Get(a, column)) != engine.rank(Get(b, column))
  }

  ghost predicate MetadataOk(metadata: seq<ColumnMeta>) {
    forall i, j :: 0 <= i < j < |metadata| ==> metadata[i].name != metadata[j].name
  }

  /** A snapshot of a table with these columns, its declared types and its declared keys. */
  ghost predicate Conforms(engine: Engine, metadata: seq<ColumnMeta>, table: Table) {
    && (forall row, m :: row in table && m in metadata ==> FitsType(Lower(m.dataType), Get(row, m.name)))
    && (forall row, m :: row in table && m in metadata && (m.nullable == "NO" || m.key == "PRI") ==> !Get(row, m.name).Null?)
    && (PrimaryColumns(metadata) != [] ==>
        forall i, j :: 0 <= i < j < |table| ==>
          exists c :: c in PrimaryColumns(metadata) && Differ(engine, table[i], table[j], c))
    && (forall m, i, j ::
          (m in metadata && m.key == "UNI" && 0 <= i < j < |table|
           && !Get(table[i], m.name).Null? && !Get(table[j], m.name).Null?) ==> Differ(engine, table[i], table[j], m.name))
  }

  /** What a key column must offer so that pages can resume after it. */
  ghost predicate Keyed(engine: Engine, dataType: string, column: string, table: Table) {
    && (forall row :: row in table ==> FitsType(dataType, Get(row, column)) && !Get(row, column).Null?)
    && (forall i, j :: 0 <= i < j < |table| ==> Differ(engine, table[i], table[j], column))
    && (dataType in INTEGER_TYPES || dataType in STRING_KEY_TYPES)
  }

  /** A single-column primary key, or a unique column that admits no NULL, of a type a string can carry. */
  predicate IsKeyRow(m: ColumnMeta, primary: seq<string>) {
    && Lower(m.dataType) in INTEGER_TYPES + STRING_KEY_TYPES
    && ((m.key == "PRI" && primary == [m.name]) || (m.key == "UNI" && m.nullable == "NO"))
  }

  lemma {:induction false} KeysetExact(rows: seq<ColumnMeta>, column: string, primary: seq<string>)
    requires MetadataOk(rows)
    ensures KeysetIn(rows, column, primary) <==> exists m :: m in rows && m.name == column && IsKeyRow(m, primary)
  {
    if rows != [] {
      if rows[0].name != column {
        KeysetExact(rows[1..], column, primary);
      } else {
        assert forall m :: m in rows && m.name == column ==> m == rows[0];
      }
    }
  }

  /** `keyset_column` is sound: on every table the metadata describes, an accepted column is never
      null, never repeats, and holds integers or strings. Composite primary keys are not accepted. */
  lemma KeysetIsKey(engine: Engine, metadata: seq<ColumnMeta>, column: string, table: Table)
    requires MetadataOk(metadata) && Conforms(engine, metadata, table) && KeysetColumn(metadata, column)
    ensures TypeOf(metadata, column).Some?
    ensures Keyed(engine, TypeOf(metadata, column).value, column, table)
  {
    KeysetExact(metadata, column, PrimaryColumns(metadata));
    var m :| m in metadata && m.name == column && IsKeyRow(m, PrimaryColumns(metadata));
    TypeOfRow(metadata, m);
    KeyValuesDiffer(engine, metadata, m, table);
    forall row | row in table ensures FitsType(Lower(m.dataType), Get(row, column)) && !Get(row, column).Null? {
    }
  }

  lemma KeyValuesDiffer(engine: Engine, metadata: seq<ColumnMeta>, m: ColumnMeta, table: Table)
    requires Conforms(engine, metadata, table) && m in metadata && IsKeyRow(m, PrimaryColumns(metadata))
    ensures forall i, j :: 0 <= i < j < |table| ==> Differ(engine, table[i], table[j], m.name)
  {
    forall i, j | 0 <= i < j < |table| ensures Differ(engine, table[i], table[j], m.name) {
      assert table[i] in table && table[j] in table;
      if m.key == "PRI" {
        var c :| c in PrimaryColumns(metadata) && Differ(engine, table[i], table[j], c);
      }
    }
  }

  /** Only ASCII letters change. */
  lemma LowerMeans(s: string)
    ensures |Lower(s)| == |s|
    ensures forall i :: 0 <= i < |s| ==>
      Lower(s)[i] == if 'A' <= s[i] <= 'Z' then "abcdefghijklmnopqrstuvwxyz"[s[i] as int - 'A' as int] else s[i]
  {
    forall i | 0 <= i < |s| && 'A' <= s[i] <= 'Z'
      ensures Lower(s)[i] == "abcdefghijklmnopqrstuvwxyz"[s[i] as int - 'A' as int]
    {
      AlphabetAt(s[i] as int - 'A' as int);
    }
  }

  lemma AlphabetAt(n: nat)
    requires n < 26
    ensures "abcdefghijklmnopqrstuvwxyz"[n] == 'a' + n as char
  {
  }

  lemma {:induction false} TypeOfNone(metadata: seq<ColumnMeta>, column: string)
    ensures TypeOf(metadata, column).None? <==> forall m :: m in metadata ==> m.name != column
  {
    if metadata != [] {
      var front, last := metadata[..|metadata| - 1], metadata[|metadata| - 1];
      assert metadata == front + [last];
      TypeOfNone(front, column);
    }
  }

  lemma {:induction false} OnlyPrimary(metadata: seq<ColumnMeta>, m: ColumnMeta)
    requires MetadataOk(metadata) && m in metadata && m.key == "PRI"
    ensures PrimaryColumns(metadata) == [m.name] <==> forall p :: p in metadata && p.key == "PRI" ==> p == m
  {
    var first, rest := metadata[0], metadata[1..];
    assert metadata == [first] + rest;
    if first == m {
      NoPrimary(rest);
      assert PrimaryColumns(metadata) == [m.name] + PrimaryColumns(rest);
      forall p | p in rest ensures p != m {
        var i :| 0 <= i < |rest| && rest[i] == p;
        assert metadata[0].name != metadata[i + 1].name;
      }
    } else {
      OnlyPrimary(rest, m);
      assert first in metadata;
      assert m.name in PrimaryColumns(rest);
    }
  }

  lemma {:induction false} NoPrimary(metadata: seq<ColumnMeta>)
    ensures PrimaryColumns(metadata) == [] <==> forall p :: p in metadata ==> p.key != "PRI"
  {
    if metadata != [] {
      assert metadata == [metadata[0]] + metadata[1..];
      NoPrimary(metadata[1..]);
    }
  }

  /** `keyset_column` says yes exactly to the only column of the primary key, or a unique column that admits no NULL,
      when it holds integers or short strings. */
  lemma KeysetMeans(metadata: seq<ColumnMeta>, column: string)
    requires MetadataOk(metadata)
    ensures KeysetColumn(metadata, column) <==> exists m ::
      && m in metadata && m.name == column
      && Lower(m.dataType) in {"tinyint", "smallint", "mediumint", "int", "integer", "bigint", "char", "varchar"}
      && ((m.key == "PRI" && forall p :: p in metadata && p.key == "PRI" ==> p == m) || (m.key == "UNI" && m.nullable == "NO"))
  {
    hide Lower;
    KeysetExact(metadata, column, PrimaryColumns(metadata));
    forall m | m in metadata && m.key == "PRI"
      ensures PrimaryColumns(metadata) == [m.name] <==> forall p :: p in metadata && p.key == "PRI" ==> p == m
    {
      OnlyPrimary(metadata, m);
    }
  }

  lemma {:induction false} TypeOfRow(metadata: seq<ColumnMeta>, m: ColumnMeta)
    requires MetadataOk(metadata) && m in metadata
    ensures TypeOf(metadata, m.name) == Some(Lower(m.dataType))
  {
    var last := metadata[|metadata| - 1];
    if last != m {
      assert metadata == metadata[..|metadata| - 1] + [last];
      TypeOfRow(metadata[..|metadata| - 1], m);
    }
  }

  // ---- Statements ------------------------------------------------------------------------------

  /** `Left` carries one placeholder: `LEFT(CAST(c AS CHAR), %s)`, or without the cast for bytes. */
  datatype Selection = Plain(column: string) | Left(column: string, cast: bool)

  /** Each condition carries one placeholder. */
  datatype Condition = NullSafeEqual(column: string) | Beyond(column: string, ascending: bool)

  /** SELECT ... FROM ... [WHERE ...] [ORDER BY ...] LIMIT %s */
  datatype Statement = Statement(
    selections: seq<Selection>, database: string, table: string, where: seq<Condition>, order: Option<Order>)

  datatype BoundSelection = Whole(column: string) | Clipped(column: string, length: nat)
  datatype BoundCondition = Equals(column: string, value: Cell) | After(column: string, ascending: bool, value: Cell)
  datatype Bound = Bound(
    selections: seq<BoundSelection>, where: seq<BoundCondition>, order: Option<Order>, limit: nat)

  /** Parameters are consumed from left to right, as the placeholders appear in the text. */
  function BindSelections(selections: seq<Selection>, parameters: seq<Cell>): Option<(seq<BoundSelection>, seq<Cell>)> {
    if selections == [] then Some(([], parameters)) else
    match selections[0]
    case Plain(column) =>
      (match BindSelections(selections[1..], parameters)
       case None => None
       case Some((rest, left)) => Some(([Whole(column)] + rest, left)))
    case Left(column, _) =>
      if parameters == [] || !parameters[0].Int? || parameters[0].i < 0 then None else
      match BindSelections(selections[1..], parameters[1..])
      case None => None
      case Some((rest, left)) => Some(([Clipped(column, parameters[0].i)] + rest, left))
  }

  function BindCondition(condition: Condition, value: Cell): BoundCondition {
    match condition
    case NullSafeEqual(column) => Equals(column, value)
    case Beyond(column, ascending) => After(column, ascending, value)
  }

  function BindWhere(where: seq<Condition>, parameters: seq<Cell>): Option<(seq<BoundCondition>, seq<Cell>)> {
    if where == [] then Some(([], parameters)) else
    if parameters == [] then None else
    match BindWhere(where[1..], parameters[1..])
    case None => None
    case Some((rest, left)) => Some(([BindCondition(where[0], parameters[0])] + rest, left))
  }

  /** None when the parameters do not fit the placeholders one for one. */
  function Bind(statement: Statement, parameters: seq<Cell>): Option<Bound> {
    match BindSelections(statement.selections, parameters)
    case None => None
    case Some((selections, rest)) =>
      match BindWhere(statement.where, rest)
      case None => None
      case Some((where, left)) =>
        if |left| == 1 && left[0].Int? && left[0].i >= 0
        then Some(Bound(selections, where, statement.order, left[0].i))
        else None
  }

  // ---- Answers ---------------------------------------------------------------------------------

  function LeftOf(cell: Cell, length: nat): Cell {
    match cell
    case Text(s) => Text(Take(s, length))
    case Bytes(bytes) => Bytes(Take(bytes, length))
    case _ => cell
  }

  function Select1(selection: BoundSelection, row: Row): Cell {
    match selection
    case Whole(column) => Get(row, column)
    case Clipped(column, length) => LeftOf(Get(row, column), length)
  }

  function Project(selections: seq<BoundSelection>, row: Row): (r: seq<Cell>)
    ensures |r| == |selections|
  {
    seq(|selections|, i requires 0 <= i < |selections| => Select1(selections[i], row))
  }

  /** The rank in reading direction: sorting and resuming both follow it. */
  function Directed(engine: Engine, ascending: bool, cell: Cell): real {
    if ascending then engine.rank(cell) else -engine.rank(cell)
  }

  /** A comparison with NULL is not true. */
  predicate Holds(engine: Engine, condition: BoundCondition, row: Row) {
    match condition
    case Equals(column, value) => engine.same(Get(row, column), value)
    case After(column, ascending, value) =>
      && !Get(row, column).Null? && !value.Null?
      && Directed(engine, ascending, Get(row, column)) > Directed(engine, ascending, value)
  }

  predicate AllHold(engine: Engine, where: seq<BoundCondition>, row: Row) {
    forall i :: 0 <= i < |where| ==> Holds(engine, where[i], row)
  }

  function Keep(table: Table, wanted: Row -> bool): (r: Table)
    ensures forall row :: row in r <==> row in table && wanted(row)
    ensures |r| <= |table|
  {
    if table == [] then []
    else (if wanted(table[0]) then [table[0]] else []) + Keep(table[1..], wanted)
  }

  lemma {:induction false} KeepSame(table: Table, p: Row -> bool, q: Row -> bool)
    requires forall row :: row in table ==> p(row) == q(row)
    ensures Keep(table, p) == Keep(table, q)
  {
    if table != [] {
      assert table[0] in table;
      KeepSame(table[1..], p, q);
    }
  }

  ghost predicate Ordered(engine: Engine, order: Option<Order>, rows: seq<Row>) {
    order.Some? ==>
      forall i, j :: 0 <= i < j < |rows| ==>
        Directed(engine, order.value.ascending, Get(rows[i], order.value.column))
          <= Directed(engine, order.value.ascending, Get(rows[j], order.value.column))
  }

  /** Rows in some order the statement allows: ties, and everything without ORDER BY, are free. */
  ghost predicate Arranged(engine: Engine, order: Option<Order>, rows: Table, chosen: seq<Row>) {
    multiset(chosen) == multiset(rows) && Ordered(engine, order, chosen)
  }

  function ProjectAll(selections: seq<BoundSelection>, rows: seq<Row>): (r: seq<seq<Cell>>)
    ensures |r| == |rows|
    ensures forall i :: 0 <= i < |rows| ==> r[i] == Project(selections, rows[i])
  {
    seq(|rows|, i requires 0 <= i < |rows| => Project(selections, rows[i]))
  }

  /** What the server may answer to a bound statement on one snapshot. */
  ghost predicate Answers(engine: Engine, bound: Bound, table: Table, answer: seq<seq<Cell>>) {
    exists chosen: seq<Row> ::
      && Arranged(engine, bound.order, Keep(table, row => AllHold(engine, bound.where, row)), chosen)
      && answer == ProjectAll(bound.selections, Take(chosen, bound.limit))
  }

  // ---- The compiler ------------------------------------------------------------------------------

  function ParamOf(value: J.Json): Cell {
    match value
    case Null => Null
    case Bool(b) => Bool(b)
    case Num(n) => Int(n)
    case Float(text, finite) => Float(text, finite)
    case Str(s) => Text(s)
    case Arr(_) => Null
    case Obj(_) => Null
  }

  function SelectionOf(dataType: string, column: string): Selection {
    if dataType in TEXT_TYPES then Left(column, true)
    else if dataType in BINARY_TYPES then Left(column, false)
    else Plain(column)
  }

  function SelectionsOf(metadata: seq<ColumnMeta>, columns: seq<string>): seq<Selection>
    requires forall c :: c in columns ==> TypeOf(metadata, c).Some?
  {
    if columns == [] then []
    else [SelectionOf(TypeOf(metadata, columns[0]).value, columns[0])] + SelectionsOf(metadata, columns[1..])
  }

  /** One length for every clipped column. */
  function ClipParameters(metadata: seq<ColumnMeta>, columns: seq<string>): seq<Cell>
    requires forall c :: c in columns ==> TypeOf(metadata, c).Some?
  {
    if columns == [] then [] else
    var clipped := SelectionOf(TypeOf(metadata, columns[0]).value, columns[0]).Left?;
    (if clipped then [Int(MAX_VALUE_TEXT + 1)] else []) + ClipParameters(metadata, columns[1..])
  }

  function FilterConditions(filters: seq<Filter>): seq<Condition> {
    seq(|filters|, i requires 0 <= i < |filters| => NullSafeEqual(filters[i].column))
  }

  function FilterParameters(filters: seq<Filter>): seq<Cell> {
    seq(|filters|, i requires 0 <= i < |filters| => ParamOf(filters[i].value))
  }

  /** An integer key is compared with an integer, never with a string. */
  function CursorParam(dataType: string, after: string): Result<Cell, ErrorClass> {
    if dataType in STRING_KEY_TYPES then Ok(Text(after))
    else if Decimal.IsCursorNumber(after) then Ok(Int(Decimal.ParseInt(after)))
    else Err(InvalidCursor)
  }

  predicate Known(metadata: seq<ColumnMeta>, select: Select) {
    && (forall c :: c in select.columns ==> TypeOf(metadata, c).Some?)
    && (forall i :: 0 <= i < |select.filters| ==> TypeOf(metadata, select.filters[i].column).Some?)
    && (select.order.Some? ==> TypeOf(metadata, select.order.value.column).Some?)
  }

  predicate Pageable(metadata: seq<ColumnMeta>, select: Select) {
    select.order.Some? && KeysetColumn(metadata, select.order.value.column)
  }

  datatype Compiled = Compiled(statement: Statement, parameters: seq<Cell>)

  /** The statement and parameter list that `select_rows` builds. */
  function Compile(metadata: seq<ColumnMeta>, select: Select): Result<Compiled, ErrorClass> {
    if !Known(metadata, select) then Err(ColumnNotFound) else
    if select.after.Some? && !Pageable(metadata, select) then Err(OrderColumnNotUnique) else
    var cursor :- CursorPart(metadata, select);
    var key := if Pageable(metadata, select) then [Plain(select.order.value.column)] else [];
    Ok(Compiled(
      Statement(SelectionsOf(metadata, select.columns) + key, select.database, select.table,
        FilterConditions(select.filters) + cursor.0, select.order),
      ClipParameters(metadata, select.columns) + FilterParameters(select.filters) + cursor.1 + [Int(select.limit + 1)]))
  }

  function CursorPart(metadata: seq<ColumnMeta>, select: Select): Result<(seq<Condition>, seq<Cell>), ErrorClass>
    requires Known(metadata, select)
  {
    if select.after.None? || select.order.None? then Ok(([], [])) else
    var order := select.order.value;
    var value :- CursorParam(TypeOf(metadata, order.column).value, select.after.value);
    Ok(([Beyond(order.column, order.ascending)], [value]))
  }

  /** Some column is named in the request. */
  ghost predicate Refers(select: Select, column: string) {
    || column in select.columns
    || (exists i :: 0 <= i < |select.filters| && select.filters[i].column == column)
    || (select.order.Some? && select.order.value.column == column)
  }

  lemma KnownMeans(metadata: seq<ColumnMeta>, select: Select)
    ensures Known(metadata, select) <==> forall column :: Refers(select, column) ==> exists m :: m in metadata && m.name == column
  {
    forall column ensures TypeOf(metadata, column).None? <==> forall m :: m in metadata ==> m.name != column {
      TypeOfNone(metadata, column);
    }
    if Known(metadata, select) {
      forall column | Refers(select, column) ensures exists m :: m in metadata && m.name == column {
        assert TypeOf(metadata, column).Some?;
      }
    } else {
      if c :| c in select.columns && TypeOf(metadata, c).None? {
        assert Refers(select, c);
      } else if i :| 0 <= i < |select.filters| && TypeOf(metadata, select.filters[i].column).None? {
        assert Refers(select, select.filters[i].column);
      } else {
        assert Refers(select, select.order.value.column);
      }
    }
  }

  /** When compiling fails, and with which error. */
  lemma CompileFailsExactly(metadata: seq<ColumnMeta>, select: Select)
    ensures Compile(metadata, select).Err? ==> Compile(metadata, select).error in {ColumnNotFound, OrderColumnNotUnique, InvalidCursor}
    ensures var known := forall column :: Refers(select, column) ==> exists m :: m in metadata && m.name == column;
      var keyed := select.order.Some? && KeysetColumn(metadata, select.order.value.column);
      && (Compile(metadata, select) == Err(ColumnNotFound) <==> !known)
      && (Compile(metadata, select) == Err(OrderColumnNotUnique) <==> known && select.after.Some? && !keyed)
      && (Compile(metadata, select) == Err(InvalidCursor) <==>
            && known && select.after.Some? && keyed
            && TypeOf(metadata, select.order.value.column) !in {Some("char"), Some("varchar")}
            && !Decimal.IsCursorNumber(select.after.value))
  {
    hide KeysetColumn, Refers, TypeOf;
    KnownMeans(metadata, select);
  }

  lemma {:induction false} SelectionAt(metadata: seq<ColumnMeta>, columns: seq<string>, i: nat)
    requires forall c :: c in columns ==> TypeOf(metadata, c).Some?
    requires i < |columns|
    ensures |SelectionsOf(metadata, columns)| == |columns|
    ensures SelectionsOf(metadata, columns)[i] == SelectionOf(TypeOf(metadata, columns[i]).value, columns[i])
  {
    hide SelectionOf;
    if i > 0 {
      SelectionAt(metadata, columns[1..], i - 1);
    } else if |columns| > 1 {
      SelectionAt(metadata, columns[1..], 0);
    }
  }

  /** What the statement asks for besides its conditions: the named table, the requested order, and column by column
      the left part of a text, read as text, the left part of binary data as it is, and any other value whole. */
  lemma StatementNames(metadata: seq<ColumnMeta>, select: Select, i: nat)
    requires Compile(metadata, select).Ok? && i < |select.columns|
    ensures TypeOf(metadata, select.columns[i]).Some?
    ensures var statement, column := Compile(metadata, select).value.statement, select.columns[i];
      var dataType := TypeOf(metadata, column).value;
      && statement.database == select.database && statement.table == select.table && statement.order == select.order
      && i < |statement.selections|
      && statement.selections[i] ==
           if dataType in {"char", "varchar", "tinytext", "text", "mediumtext", "longtext", "enum", "set", "json"} then Left(column, true)
           else if dataType in {
             "binary", "varbinary", "tinyblob", "blob", "mediumblob", "longblob", "geometry", "point", "linestring", "polygon",
             "multipoint", "multilinestring", "multipolygon", "geometrycollection"} then Left(column, false)
           else Plain(column)
  {
    SelectionAt(metadata, select.columns, i);
    SelectionKinds(TypeOf(metadata, select.columns[i]).value, select.columns[i]);
  }

  lemma SelectionKinds(dataType: string, column: string)
    ensures SelectionOf(dataType, column) ==
      if dataType in {"char", "varchar", "tinytext", "text", "mediumtext", "longtext", "enum", "set", "json"} then Left(column, true)
      else if dataType in {
        "binary", "varbinary", "tinyblob", "blob", "mediumblob", "longblob", "geometry", "point", "linestring", "polygon",
        "multipoint", "multilinestring", "multipolygon", "geometrycollection"} then Left(column, false)
      else Plain(column)
  {
  }

  // ---- The loops ---------------------------------------------------------------------------------

  /** `where_clause`: conditions and parameters grow together. */
  method WhereClause(filters: seq<Filter>, parameters: seq<Cell>) returns (where: seq<Condition>, extended: seq<Cell>)
    ensures where == FilterConditions(filters)
    ensures extended == parameters + FilterParameters(filters)
  {
    where, extended := [], parameters;
    var i := 0;
    while i < |filters|
      invariant 0 <= i <= |filters|
      invariant where == FilterConditions(filters)[..i]
      invariant extended == parameters + FilterParameters(filters)[..i]
    {
      where := where + [NullSafeEqual(filters[i].column)];
      extended := extended + [ParamOf(filters[i].value)];
      i := i + 1;
    }
  }

  lemma {:induction false} SelectionsAppend(metadata: seq<ColumnMeta>, columns: seq<string>, last: string)
    requires forall c :: c in columns ==> TypeOf(metadata, c).Some?
    requires TypeOf(metadata, last).Some?
    ensures SelectionsOf(metadata, columns + [last])
         == SelectionsOf(metadata, columns) + [SelectionOf(TypeOf(metadata, last).value, last)]
    ensures ClipParameters(metadata, columns + [last]) == ClipParameters(metadata, columns) + ClipParameters(metadata, [last])
  {
    hide SelectionOf, TypeOf;
    if columns == [] {
      assert columns + [last] == [last];
      assert [last][1..] == [];
    } else {
      assert (columns + [last])[1..] == columns[1..] + [last];
      SelectionsAppend(metadata, columns[1..], last);
    }
  }

  /** The loop over the requested columns: a clipped column brings its length as a parameter. */
  method BuildSelections(metadata: seq<ColumnMeta>, columns: seq<string>)
    returns (selections: seq<Selection>, parameters: seq<Cell>)
    requires forall c :: c in columns ==> TypeOf(metadata, c).Some?
    ensures selections == SelectionsOf(metadata, columns)
    ensures parameters == ClipParameters(metadata, columns)
  {
    selections, parameters := [], [];
    var i := 0;
    while i < |columns|
      invariant 0 <= i <= |columns|
      invariant selections == SelectionsOf(metadata, columns[..i])
      invariant parameters == ClipParameters(metadata, columns[..i])
    {
      var name := columns[i];
      assert columns[..i + 1] == columns[..i] + [name];
      SelectionsAppend(metadata, columns[..i], name);
      var selection := SelectionOf(TypeOf(metadata, name).value, name);
      selections := selections + [selection];
      if selection.Left? {
        parameters := parameters + [Int(MAX_VALUE_TEXT + 1)];
      }
      i := i + 1;
    }
    assert columns[..i] == columns;
  }

  /** Clip lengths, filter values, cursor and limit are appended in the order of their placeholders. */
  method BuildStatement(metadata: seq<ColumnMeta>, select: Select) returns (r: Result<Compiled, ErrorClass>)
    ensures r == Compile(metadata, select)
  {
    if !Known(metadata, select) {
      return Err(ColumnNotFound);
    }
    var pageable := Pageable(metadata, select);
    if select.after.Some? && !pageable {
      return Err(OrderColumnNotUnique);
    }
    var selections, parameters := BuildSelections(metadata, select.columns);
    if pageable {
      selections := selections + [Plain(select.order.value.column)];
    }
    var where;
    where, parameters := WhereClause(select.filters, parameters);
    if select.after.Some? {
      var order := select.order.value;
      var value := CursorParam(TypeOf(metadata, order.column).value, select.after.value);
      if value.Err? {
        return Err(value.error);
      }
      where := where + [Beyond(order.column, order.ascending)];
      parameters := parameters + [value.value];
    }
    parameters := parameters + [Int(select.limit + 1)];
    ghost var cursor := CursorPart(metadata, select).value;
    assert where == FilterConditions(select.filters) + cursor.0;
    assert parameters == ClipParameters(metadata, select.columns) + FilterParameters(select.filters)
      + cursor.1 + [Int(select.limit + 1)];
    assert !pageable ==> selections + [] == selections;
    return Ok(Compiled(Statement(selections, select.database, select.table, where, select.order), parameters));
  }
}
