/** JSON values as Python's `json` module reads and writes them. */
module JsonText {
  import opened Basics
  import Decimal

  /** `fields` keeps the source order; a repeated name is possible, and its last value wins. */
  datatype Json =
    | Null
    | Bool(b: bool)
    | Num(n: int)
    | Float(text: string, finite: bool)
    | Str(s: string)
    | Arr(items: seq<Json>)
    | Obj(fields: seq<Field>)

  datatype Field = Field(name: string, value: Json)

  type Fields = seq<Field>

  function Names(fields: Fields): set<string> {
    set i | 0 <= i < |fields| :: fields[i].name
  }

  /** Dictionary lookup: the last field of that name. */
  function Lookup(fields: Fields, name: string): (r: Option<Json>)
    ensures r.Some? <==> name in Names(fields)
    ensures r.Some? ==> Field(name, r.value) in fields
  {
    if fields == [] then None
    else
      var last := fields[|fields| - 1];
      var front := fields[..|fields| - 1];
      assert fields == front + [last];
      assert Names(fields) == Names(front) + {last.name};
      if last.name == name then Some(last.value) else Lookup(front, name)
  }

  function HexDigit(n: nat): char
    requires n < 16
  {
    "0123456789abcdef"[n]
  }

  /** `\uXXXX` for one UTF-16 unit. */
  function UnicodeEscape(unit: nat): (s: string)
    requires unit < 0x10000
    ensures |s| == 6
  {
    ['\\', 'u', HexDigit(unit / 4096), HexDigit(unit / 256 % 16), HexDigit(unit / 16 % 16), HexDigit(unit % 16)]
  }

  /** `ensure_ascii`: anything outside the printable ASCII range is escaped. */
  function EscapeChar(c: char): string {
    if c == '"' then "\\\""
    else if c == '\\' then "\\\\"
    else if c == '\n' then "\\n"
    else if c == '\r' then "\\r"
    else if c == '\t' then "\\t"
    else if c as int == 12 then "\\f"
    else if c as int == 8 then "\\b"
    else if ' ' <= c <= '~' then [c]
    else if c as int < 0x10000 then UnicodeEscape(c as int)
    else
      var v := c as int - 0x10000;
      UnicodeEscape(0xd800 + v / 1024 % 1024) + UnicodeEscape(0xdc00 + v % 1024)
  }

  function Escape(s: string): string {
    if s == "" then "" else EscapeChar(s[0]) + Escape(s[1..])
  }

  function Quote(s: string): (r: string)
    ensures |r| >= 2
  {
    "\"" + Escape(s) + "\""
  }

  /** `json.dumps(value, ensure_ascii=True, separators=(",", ":"))`. */
  function Encode(value: Json): string
    decreases value
  {
    match value
    case Null => "null"
    case Bool(b) => if b then "true" else "false"
    case Num(n) => Decimal.IntText(n)
    case Float(text, _) => text
    case Str(s) => Quote(s)
    case Arr(items) => "[" + EncodeItems(items) + "]"
    case Obj(fields) => "{" + EncodeFields(fields) + "}"
  }

  function EncodeItems(items: seq<Json>): string
    decreases items
  {
    if items == [] then ""
    else if |items| == 1 then Encode(items[0])
    else Encode(items[0]) + "," + EncodeItems(items[1..])
  }

  function EncodeFields(fields: Fields): string
    decreases fields
  {
    if fields == [] then ""
    else
      var first := Quote(fields[0].name) + ":" + Encode(fields[0].value);
      if |fields| == 1 then first else first + "," + EncodeFields(fields[1..])
  }

  /** What one more field adds to an object's encoding. */
  lemma {:induction false} AppendField(fields: Fields, name: string, value: Json)
    ensures |EncodeFields(fields + [Field(name, value)])|
         == |EncodeFields(fields)| + (if fields == [] then 0 else 1) + |Quote(name)| + 1 + |Encode(value)|
  {
    var all := fields + [Field(name, value)];
    if fields != [] {
      assert all[0] == fields[0];
      assert all[1..] == fields[1..] + [Field(name, value)];
      AppendField(fields[1..], name, value);
    }
  }

  /** What one more item adds to an array's encoding. */
  lemma {:induction false} AppendItem(items: seq<Json>, value: Json)
    ensures |EncodeItems(items + [value])|
         == |EncodeItems(items)| + (if items == [] then 0 else 1) + |Encode(value)|
  {
    var all := items + [value];
    if items != [] {
      assert all[0] == items[0];
      assert all[1..] == items[1..] + [value];
      AppendItem(items[1..], value);
    }
  }

  lemma FieldsCons(first: Field, rest: Fields)
    ensures |EncodeFields([first] + rest)|
         == |Quote(first.name)| + 1 + |Encode(first.value)| + if rest == [] then 0 else 1 + |EncodeFields(rest)|
  {
    hide Quote, Encode;
    assert ([first] + rest)[1..] == rest;
  }

  /** An object's encoding grows and shrinks with the value of any one field. */
  lemma {:induction false} ReplaceValue(before: Fields, name: string, v: Json, w: Json, after: Fields)
    ensures |EncodeFields(before + [Field(name, v)] + after)| - |Encode(v)|
         == |EncodeFields(before + [Field(name, w)] + after)| - |Encode(w)|
  {
    hide Quote, Encode, EncodeFields;
    if before == [] {
      assert [] + [Field(name, v)] + after == [Field(name, v)] + after && [] + [Field(name, w)] + after == [Field(name, w)] + after;
      FieldsCons(Field(name, v), after);
      FieldsCons(Field(name, w), after);
    } else {
      var tail := before[1..];
      ReplaceValue(tail, name, v, w, after);
      FieldsCons(before[0], tail + [Field(name, v)] + after);
      FieldsCons(before[0], tail + [Field(name, w)] + after);
      assert before + [Field(name, v)] + after == [before[0]] + (tail + [Field(name, v)] + after);
      assert before + [Field(name, w)] + after == [before[0]] + (tail + [Field(name, w)] + after);
    }
  }

  lemma {:induction false} EscapeBound(s: string)
    ensures |Escape(s)| <= 12 * |s|
  {
    if s != "" {
      EscapeBound(s[1..]);
    }
  }

  lemma {:induction false} EscapeAtLeast(s: string)
    ensures |Escape(s)| >= |s|
  {
    if s != "" {
      EscapeAtLeast(s[1..]);
    }
  }

  /** Every field encodes, with its separator, within `bound` bytes. */
  ghost predicate FieldsWithin(fields: Fields, bound: nat) {
    forall i :: 0 <= i < |fields| ==> |Quote(fields[i].name)| + |Encode(fields[i].value)| + 2 <= bound
  }

  lemma FieldsWithinAppend(fields: Fields, name: string, value: Json, bound: nat)
    requires FieldsWithin(fields, bound)
    requires 12 * |name| + |Encode(value)| + 4 <= bound
    ensures FieldsWithin(fields + [Field(name, value)], bound)
  {
    EscapeBound(name);
  }

  lemma {:induction false} FieldsBound(fields: Fields, bound: nat)
    requires FieldsWithin(fields, bound)
    ensures |EncodeFields(fields)| <= |fields| * bound
  {
    if fields != [] {
      var n := |fields| - 1;
      FieldsBound(fields[1..], bound);
      MultiplyStep(n, bound);
      assert |Quote(fields[0].name)| + |Encode(fields[0].value)| + 2 <= bound;
    }
  }

  lemma MultiplyStep(n: nat, bound: nat)
    ensures (n + 1) * bound == n * bound + bound
  {
  }

  predicate IsAscii(s: string) {
    forall i :: 0 <= i < |s| ==> s[i] as int < 128
  }

  lemma HexDigitIsAscii(n: nat)
    requires n < 16
    ensures HexDigit(n) as int < 128
  {
  }

  lemma UnicodeEscapeIsAscii(unit: nat)
    requires unit < 0x10000
    ensures IsAscii(UnicodeEscape(unit))
  {
    HexDigitIsAscii(unit / 4096);
    HexDigitIsAscii(unit / 256 % 16);
    HexDigitIsAscii(unit / 16 % 16);
    HexDigitIsAscii(unit % 16);
  }

  lemma EscapeCharIsAscii(c: char)
    ensures IsAscii(EscapeChar(c))
  {
    if c as int >= 0x10000 {
      var v := c as int - 0x10000;
      UnicodeEscapeIsAscii(0xd800 + v / 1024 % 1024);
      UnicodeEscapeIsAscii(0xdc00 + v % 1024);
    } else {
      UnicodeEscapeIsAscii(c as int);
    }
  }

  lemma {:induction false} EscapeIsAscii(s: string)
    ensures IsAscii(Escape(s))
  {
    if s != "" {
      EscapeCharIsAscii(s[0]);
      EscapeIsAscii(s[1..]);
    }
  }

  lemma {:induction false} PrintIsAscii(n: nat)
    ensures IsAscii(Decimal.Print(n))
  {
  }

  /** The printable characters that stand for themselves cost one byte each. */
  lemma {:induction false} EscapePlain(s: string)
    requires forall i :: 0 <= i < |s| ==> ' ' <= s[i] <= '~' && s[i] != '"' && s[i] != '\\'
    ensures Escape(s) == s
  {
    if s != "" {
      EscapePlain(s[1..]);
      assert s == [s[0]] + s[1..];
    }
  }

  /** Floats are the only values whose text is not produced here. */
  predicate FloatsAscii(value: Json)
    decreases value
  {
    match value
    case Float(text, _) => IsAscii(text)
    case Arr(items) => forall i :: 0 <= i < |items| ==> FloatsAscii(items[i])
    case Obj(fields) => forall i :: 0 <= i < |fields| ==> FloatsAscii(fields[i].value)
    case _ => true
  }

  /** So the encoding has as many UTF-8 bytes as characters. */
  lemma {:induction false} EncodeIsAscii(value: Json)
    requires FloatsAscii(value)
    ensures IsAscii(Encode(value))
    decreases value
  {
    match value
    case Num(n) => PrintIsAscii(if n < 0 then -n else n);
    case Str(s) => EscapeIsAscii(s);
    case Arr(items) => ItemsAreAscii(items);
    case Obj(fields) => FieldsAreAscii(fields);
    case _ =>
  }

  lemma {:induction false} ItemsAreAscii(items: seq<Json>)
    requires forall i :: 0 <= i < |items| ==> FloatsAscii(items[i])
    ensures IsAscii(EncodeItems(items))
    decreases items
  {
    if items != [] {
      EncodeIsAscii(items[0]);
      ItemsAreAscii(items[1..]);
    }
  }

  lemma {:induction false} FieldsAreAscii(fields: Fields)
    requires forall i :: 0 <= i < |fields| ==> FloatsAscii(fields[i].value)
    ensures IsAscii(EncodeFields(fields))
    decreases fields
  {
    if fields != [] {
      EscapeIsAscii(fields[0].name);
      EncodeIsAscii(fields[0].value);
      FieldsAreAscii(fields[1..]);
    }
  }
}
