/** The page that `emit` loses is a legal page of a real table. */
module QueryWitness {
  import opened Basics
  import opened QueryRequest
  import opened QuerySql
  import opened QueryCells
  import opened QueryMeaning
  import opened QuerySelect
  import opened QueryPaging
  import opened QueryBudget
  import J = JsonText

  /** Integer keys order by value. */
  function WitnessEngine(): Engine {
    Engine((cell: Cell) => if cell.Int? then cell.i as real else 0.0, (a: Cell, b: Cell) => a == b)
  }

  function TextOf(i: nat, x: nat): string {
    Filler(if i < 63 then MAX_VALUE_TEXT else x)
  }

  function WitnessTable(x: nat): (r: Table)
    ensures |r| == 64
    ensures forall i :: 0 <= i < 64 ==> r[i] == map["k" := Int(64 - i), "c" := Text(TextOf(i, x))]
  {
    seq(64, i requires 0 <= i < 64 => map["k" := Int(64 - i), "c" := Text(TextOf(i, x))])
  }

  lemma WitnessTypes()
    ensures MetadataOk(WitnessMetadata()) && PrimaryColumns(WitnessMetadata()) == ["k"]
    ensures Lower("int") == "int" && Lower("text") == "text"
    ensures TypeOf(WitnessMetadata(), "c") == Some("text") && TypeOf(WitnessMetadata(), "k") == Some("int")
  {
    var metadata := WitnessMetadata();
    assert Lower("int") == "int" && Lower("text") == "text";
    assert metadata[..1][0] == metadata[0] && PrimaryColumns(metadata[1..]) == [];
  }

  lemma WitnessCells(x: nat, i: nat)
    requires i < 64
    ensures Get(WitnessTable(x)[i], "k") == Int(64 - i) && Get(WitnessTable(x)[i], "c") == Text(TextOf(i, x))
    ensures WitnessEngine().rank(Get(WitnessTable(x)[i], "k")) == (64 - i) as real
  {
  }

  lemma KeysApart(x: nat, i: nat, j: nat)
    requires i < j < 64
    ensures Differ(WitnessEngine(), WitnessTable(x)[i], WitnessTable(x)[j], "k")
    ensures Directed(WitnessEngine(), false, Get(WitnessTable(x)[i], "k")) <= Directed(WitnessEngine(), false, Get(WitnessTable(x)[j], "k"))
  {
    hide TextOf, WitnessTable, WitnessEngine;
    WitnessCells(x, i);
    WitnessCells(x, j);
  }

  lemma RowsFit(x: nat, row: Row)
    requires row in WitnessTable(x)
    ensures exists i :: 0 <= i < 64 && WitnessTable(x)[i] == row && Get(row, "k") == Int(64 - i)
    ensures Get(row, "c").Text?
  {
    hide TextOf;
    var i :| 0 <= i < 64 && WitnessTable(x)[i] == row;
    WitnessCells(x, i);
  }

  lemma WitnessConforms(x: nat)
    ensures Conforms(WitnessEngine(), WitnessMetadata(), WitnessTable(x))
  {
    hide WitnessEngine, WitnessTable, PrimaryColumns, Differ;
    WitnessTypes();
    forall row | row in WitnessTable(x) ensures Get(row, "c").Text? && FitsType("int", Get(row, "k")) && Get(row, "k").Int? {
      RowsFit(x, row);
    }
    forall i, j | 0 <= i < j < 64 ensures Differ(WitnessEngine(), WitnessTable(x)[i], WitnessTable(x)[j], "k") {
      KeysApart(x, i, j);
    }
  }

  lemma {:induction false} KeepAll(table: Table, wanted: Row -> bool)
    requires forall row :: row in table ==> wanted(row)
    ensures Keep(table, wanted) == table
  {
    if table != [] {
      assert table[0] in table;
      KeepAll(table[1..], wanted);
    }
  }

  lemma WitnessCompiles()
    ensures Known(WitnessMetadata(), WitnessSelect()) && Compile(WitnessMetadata(), WitnessSelect()).Ok?
    ensures WitnessSelect().limit + 1 == 101
    ensures forall row :: Wanted(WitnessEngine(), WitnessSelect(), CursorKey(WitnessMetadata(), WitnessSelect()))(row)
  {
    WitnessTypes();
    WitnessIsValid();
  }

  lemma WitnessReads(x: nat)
    ensures Reads(WitnessEngine(), WitnessMetadata(), WitnessSelect(), WitnessTable(x), WitnessTable(x))
  {
    hide WitnessEngine, WitnessTable, Wanted, CursorKey, Directed;
    WitnessCompiles();
    KeepAll(WitnessTable(x), Wanted(WitnessEngine(), WitnessSelect(), CursorKey(WitnessMetadata(), WitnessSelect())));
    forall i, j | 0 <= i < j < 64
      ensures Directed(WitnessEngine(), false, Get(WitnessTable(x)[i], "k")) <= Directed(WitnessEngine(), false, Get(WitnessTable(x)[j], "k"))
    {
      KeysApart(x, i, j);
    }
  }

  lemma ShortEnough(i: nat, x: nat)
    requires x <= MAX_VALUE_TEXT
    ensures RawCell("text", Text(TextOf(i, x))) == Text(TextOf(i, x))
  {
    assert Take(TextOf(i, x), MAX_VALUE_TEXT + 1) == TextOf(i, x);
  }

  lemma WitnessRaw(x: nat, i: nat)
    requires x <= MAX_VALUE_TEXT && i < 64 && Known(WitnessMetadata(), WitnessSelect())
    ensures RawRow(WitnessMetadata(), WitnessSelect(), WitnessTable(x)[i]) == WitnessAnswer(x)[i]
  {
    hide WitnessTable, RawCell, Get, TypeOf, Pageable;
    WitnessTypes();
    WitnessIsValid();
    WitnessCells(x, i);
    ShortEnough(i, x);
    assert RawCells(WitnessMetadata(), ["c"], WitnessTable(x)[i]) == [Text(TextOf(i, x))];
    assert WitnessAnswer(x)[i] == [Text(TextOf(i, x)), Int(64 - i)];
  }

  lemma WitnessAnswers(x: nat)
    requires x <= MAX_VALUE_TEXT && Known(WitnessMetadata(), WitnessSelect())
    ensures WitnessAnswer(x) == RawRows(WitnessMetadata(), WitnessSelect(), Take(WitnessTable(x), 101))
  {
    hide WitnessTable, WitnessAnswer, RawRow, Known, WitnessMetadata, WitnessSelect;
    assert Take(WitnessTable(x), 101) == WitnessTable(x);
    forall i | 0 <= i < 64 ensures RawRow(WitnessMetadata(), WitnessSelect(), WitnessTable(x)[i]) == WitnessAnswer(x)[i] {
      WitnessRaw(x, i);
    }
  }

  lemma AnswerIsLegal(engine: Engine, metadata: seq<ColumnMeta>, select: Select, table: Table, answer: seq<seq<Cell>>)
    requires Compile(metadata, select).Ok? && Reads(engine, metadata, select, table, table)
    requires answer == RawRows(metadata, select, Take(table, select.limit + 1))
    ensures var compiled := Compile(metadata, select).value;
      && Bind(compiled.statement, compiled.parameters).Some?
      && Answers(engine, Bind(compiled.statement, compiled.parameters).value, table, answer)
  {
    hide Reads, Answers, Bind, RawRows, Compile;
    assert Known(metadata, select) by {
      CompiledIsKnown(metadata, select);
    }
    CompilePreservesMeaning(engine, metadata, select, table, answer);
  }

  lemma CompiledIsKnown(metadata: seq<ColumnMeta>, select: Select)
    requires Compile(metadata, select).Ok?
    ensures Known(metadata, select)
  {
  }

  /** A conforming table of 64 rows, the answer its server gives, and the page that the answer fills; what reaches
      the caller is an error. */
  lemma LostPageIsReal() returns (visit: Visit)
    ensures var metadata, select, page := WitnessMetadata(), WitnessSelect(), visit.page;
      && ValidSelect(select) && MetadataOk(metadata) && Pageable(metadata, select)
      && IsVisit(WitnessEngine(), metadata, select, visit)
      && |page.rows| == |visit.table| == 64 && !page.truncated
      && Emitted(Response(select, page)) == J.Encode(TOO_LARGE)
  {
    hide SelectPage, WitnessEngine, WitnessTable, WitnessAnswer, WitnessMetadata, WitnessSelect, Compile, Reads, RawRows, Conforms,
         Response, J.Encode, MetadataOk, Pageable, ValidSelect, Known, Bind, Answers;
    var x := LastPageLost();
    WitnessTypes();
    WitnessConforms(x);
    WitnessCompiles();
    WitnessReads(x);
    WitnessAnswers(x);
    AnswerIsLegal(WitnessEngine(), WitnessMetadata(), WitnessSelect(), WitnessTable(x), WitnessAnswer(x));
    visit := Visit(WitnessTable(x), WitnessAnswer(x), SelectPage(WitnessMetadata(), WitnessSelect(), WitnessAnswer(x)).value);
  }
}
