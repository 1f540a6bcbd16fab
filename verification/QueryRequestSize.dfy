/** The request limit: when the request that asks for the next page still fits into it. */
module QueryRequestSize {
  import opened Basics
  import opened QueryRequest
  import opened QueryPaging
  import J = JsonText
  import Decimal

  const MAX_REQUEST_BYTES := 16 * 1024

  /** The bytes of a request as sent, compact and in ASCII. */
  function RequestSize(select: Select): nat {
    |J.Encode(RenderSelect(select))|
  }

  /** `main` refuses a longer request before it parses it, and the gateway does not send one. */
  predicate Fits(select: Select) {
    RequestSize(select) <= MAX_REQUEST_BYTES
  }

  lemma PlainName()
    ensures |J.Quote("after")| == 7
  {
    J.EscapePlain("after");
  }

  lemma ObjectSize(fields: J.Fields)
    ensures |J.Encode(J.Obj(fields))| == |J.EncodeFields(fields)| + 2
  {
  }

  /** A resumed request is the request without a cursor, nine bytes for the field, and the quoted cursor. */
  lemma ResumedSize(select: Select, cursor: string)
    ensures RequestSize(Resume(select, cursor)) == RequestSize(select.(after := None)) + 9 + |J.Quote(cursor)|
  {
    hide J.Encode, J.EncodeFields, J.Quote, RenderBase, RenderOrder;
    BaseIgnoresAfter(select, None);
    BaseIgnoresAfter(select, Some(cursor));
    var first := select.(after := None);
    var base := WithField(RenderBase(select), "orderBy",
                          if select.order.None? then None else Some(RenderOrder(select.order.value)));
    assert RenderSelect(first) == J.Obj(base);
    assert RenderSelect(Resume(select, cursor)) == J.Obj(base + [J.Field("after", J.Str(cursor))]);
    ObjectSize(base);
    ObjectSize(base + [J.Field("after", J.Str(cursor))]);
    J.AppendField(base, "after", J.Str(cursor));
    BaseNonempty(select);
    PlainName();
    StringSize(cursor);
  }

  lemma BaseIgnoresAfter(select: Select, after: Option<string>)
    ensures RenderBase(select.(after := after)) == RenderBase(select)
  {
  }

  lemma BaseNonempty(select: Select)
    ensures RenderBase(select) != []
  {
  }

  lemma StringSize(s: string)
    ensures |J.Encode(J.Str(s))| == |J.Quote(s)|
  {
  }

  /** The next page can be asked for exactly when the request without cursor leaves room for it. */
  lemma ResumeFitsExactly(select: Select, cursor: string)
    ensures Fits(Resume(select, cursor)) <==> RequestSize(select.(after := None)) + 9 + |J.Quote(cursor)| <= MAX_REQUEST_BYTES
  {
    ResumedSize(select, cursor);
  }

  lemma {:induction false} AllPlain(s: string)
    requires Decimal.AllDigits(s)
    ensures |J.Escape(s)| == |s|
  {
    if s != "" {
      AllPlain(s[1..]);
    }
  }

  lemma QuotedKey(key: int)
    requires 0 - Decimal.Power10(20) < key < Decimal.Power10(20)
    ensures |J.Quote(Decimal.IntText(key))| <= 23
  {
    hide Decimal.Print, Decimal.Power10, Decimal.ParseInt;
    var text := Decimal.IntText(key);
    Decimal.IntRoundTrip(key);
    if key < 0 {
      assert text[1..] == Decimal.Print(0 - key);
      AllPlain(text[1..]);
    } else {
      AllPlain(text);
    }
  }

  /** Whatever integer key the page ended with, a request that leaves 32 bytes can be resumed. */
  lemma IntegerKeysFit(select: Select, key: int)
    requires 0 - Decimal.Power10(20) < key < Decimal.Power10(20)
    requires RequestSize(select.(after := None)) + 32 <= MAX_REQUEST_BYTES
    ensures Fits(Resume(select, Decimal.IntText(key)))
  {
    hide RequestSize, J.Quote, Decimal.IntText, Decimal.Power10, Fits;
    QuotedKey(key);
    ResumeFitsExactly(select, Decimal.IntText(key));
  }

  // ---- A request that cannot be resumed --------------------------------------------------------------------

  function Long(): string {
    seq(MAX_VALUE_TEXT, i => 'a')
  }

  function LongFilter(): Filter {
    Filter("c", J.Str(Long()))
  }

  /** Three filters of the longest text, read in the order of a text key. */
  function LongSelect(): Select {
    Select("d", "t", ["c"], [LongFilter(), LongFilter(), LongFilter()], Some(Order("k", true)), None, 100)
  }

  lemma LongSelectIsValid()
    ensures ValidSelect(LongSelect())
  {
  }

  /** Printable characters that stand for themselves. */
  predicate IsPlain(s: string) {
    forall i :: 0 <= i < |s| ==> ' ' <= s[i] <= '~' && s[i] != '"' && s[i] != '\\'
  }

  lemma QuotedPlain(s: string)
    requires IsPlain(s)
    ensures |J.Quote(s)| == |s| + 2 && |J.Encode(J.Str(s))| == |s| + 2
  {
    J.EscapePlain(s);
  }

  lemma TwoFieldSize(a: J.Field, b: J.Field)
    ensures |J.Encode(J.Obj([a, b]))| == |J.Quote(a.name)| + 5 + |J.Encode(a.value)| + |J.Quote(b.name)| + |J.Encode(b.value)|
  {
    hide J.Quote, J.Encode;
    ObjectSize([a, b]);
    J.AppendField([a], b.name, b.value);
    J.AppendField([], a.name, a.value);
    assert [a] + [b] == [a, b] && [] + [a] == [a];
  }

  lemma LongFilterSize()
    ensures |J.Encode(RenderFilter(LongFilter()))| == MAX_VALUE_TEXT + 25
  {
    hide J.EncodeFields, J.Quote, J.Encode, Long;
    var fields := RenderFilter(LongFilter()).fields;
    assert fields == [J.Field("column", J.Str("c")), J.Field("value", J.Str(Long()))];
    TwoFieldSize(fields[0], fields[1]);
    QuotedPlain("column");
    QuotedPlain("value");
    QuotedPlain("c");
    LongIsPlain();
    QuotedPlain(Long());
  }

  lemma LongIsPlain()
    ensures IsPlain(Long()) && |Long()| == MAX_VALUE_TEXT
  {
  }

  lemma ThreeItems(item: J.Json)
    ensures |J.Encode(J.Arr([item, item, item]))| == 3 * |J.Encode(item)| + 4
  {
    var one, two, three := [item], [item, item], [item, item, item];
    J.AppendItem([], item);
    J.AppendItem(one, item);
    J.AppendItem(two, item);
    assert [] + [item] == one && one + [item] == two && two + [item] == three;
  }

  /** The fields of the request with its filters left out. */
  function OtherFields(filters: J.Json): J.Fields {
    [ J.Field("operation", J.Str("select_rows")),
      J.Field("database", J.Str("d")),
      J.Field("table", J.Str("t")),
      J.Field("columns", J.Arr([J.Str("c")])) ]
      + [J.Field("filters", filters)]
      + [J.Field("limit", J.Num(100)), J.Field("orderBy", J.Obj([J.Field("column", J.Str("k")), J.Field("direction", J.Str("asc"))]))]
  }

  lemma LongFields()
    ensures RenderSelect(LongSelect()) == J.Obj(OtherFields(J.Arr([RenderFilter(LongFilter()), RenderFilter(LongFilter()), RenderFilter(LongFilter())])))
  {
    var select := LongSelect();
    assert RenderColumns(select.columns) == J.Arr([J.Str("c")]);
    assert RenderFilters(select.filters) == J.Arr([RenderFilter(LongFilter()), RenderFilter(LongFilter()), RenderFilter(LongFilter())]);
  }

  lemma SmallFields()
    ensures |J.EncodeFields(OtherFields(J.Arr([])))| <= 1400
  {
    hide J.EncodeFields, J.Encode, J.Quote;
    var fields := OtherFields(J.Arr([]));
    forall i | 0 <= i < |fields| ensures |J.Quote(fields[i].name)| + |J.Encode(fields[i].value)| + 2 <= 200 {
      SmallField(i);
    }
    assert J.FieldsWithin(fields, 200);
    J.FieldsBound(fields, 200);
  }

  lemma SmallNames()
    ensures |J.Quote("operation")| == 11 && |J.Quote("database")| == 10 && |J.Quote("table")| == 7 && |J.Quote("columns")| == 9
    ensures |J.Quote("filters")| == 9 && |J.Quote("limit")| == 7 && |J.Quote("orderBy")| == 9
  {
    hide J.Quote, J.Encode;
    QuotedPlain("operation");
    QuotedPlain("database");
    QuotedPlain("table");
    QuotedPlain("columns");
    QuotedPlain("filters");
    QuotedPlain("limit");
    QuotedPlain("orderBy");
  }

  lemma SmallTexts()
    ensures |J.Encode(J.Str("select_rows"))| == 13 && |J.Encode(J.Str("d"))| == 3 && |J.Encode(J.Str("t"))| == 3
  {
    hide J.Quote, J.Encode;
    QuotedPlain("select_rows");
    QuotedPlain("d");
    QuotedPlain("t");
  }

  lemma SmallOrder()
    ensures |J.Encode(J.Obj([J.Field("column", J.Str("k")), J.Field("direction", J.Str("asc"))]))| == 32
  {
    hide J.Quote, J.Encode;
    TwoFieldSize(J.Field("column", J.Str("k")), J.Field("direction", J.Str("asc")));
    QuotedPlain("column");
    QuotedPlain("direction");
    QuotedPlain("k");
    QuotedPlain("asc");
  }

  lemma SmallOthers()
    ensures |J.Encode(J.Arr([J.Str("c")]))| == 5 && |J.Encode(J.Num(100))| <= 3
  {
    hide J.Quote;
    QuotedPlain("c");
    assert Decimal.Power10(3) == 1000;
    Decimal.PrintLength(100, 3);
  }

  lemma SmallField(i: nat)
    requires i < 7
    ensures |J.Quote(OtherFields(J.Arr([]))[i].name)| + |J.Encode(OtherFields(J.Arr([]))[i].value)| + 2 <= 200
  {
    hide J.Encode, J.Quote;
    SmallNames();
    SmallTexts();
    SmallOrder();
    SmallOthers();
    EmptyArray();
  }

  /** The first request fits, and the request for the page after a key of the longest text does not. */
  lemma LongRequestCannotResume()
    ensures ValidSelect(LongSelect()) && ValidSelect(Resume(LongSelect(), Long()))
    ensures Fits(LongSelect()) && !Fits(Resume(LongSelect(), Long()))
  {
    hide J.Encode, J.EncodeFields, J.Quote, RenderSelect, RenderFilter, LongFilter, Long, OtherFields;
    LongSelectIsValid();
    LongIsPlain();
    var item := RenderFilter(LongFilter());
    var filters := J.Arr([item, item, item]);
    LongFields();
    LongFilterSize();
    ThreeItems(item);
    SmallFields();
    FilterMatters(filters);
    ObjectSize(OtherFields(filters));
    ResumedSize(LongSelect(), Long());
    QuotedPlain(Long());
    assert LongSelect().(after := None) == LongSelect();
  }

  lemma FilterMatters(filters: J.Json)
    ensures |J.EncodeFields(OtherFields(filters))| == |J.EncodeFields(OtherFields(J.Arr([])))| - 2 + |J.Encode(filters)|
  {
    hide J.EncodeFields;
    var before := OtherFields(filters)[..4];
    var after := OtherFields(filters)[5..];
    assert OtherFields(filters) == before + [J.Field("filters", filters)] + after;
    assert OtherFields(J.Arr([])) == before + [J.Field("filters", J.Arr([]))] + after;
    J.ReplaceValue(before, "filters", filters, J.Arr([]), after);
    EmptyArray();
  }

  lemma EmptyArray()
    ensures |J.Encode(J.Arr([]))| == 2
  {
  }
}
