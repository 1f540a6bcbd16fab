/** Reading back what was printed: a parser for the compact ASCII form, and why it inverts the printer. */
module JsonReader {
  import opened Basics
  import opened JsonText
  import Decimal

  // ---- Strings ---------------------------------------------------------------------------------

  function HexValue(c: char): (n: Option<nat>)
    ensures n.Some? ==> n.value < 16
  {
    if '0' <= c <= '9' then Some((c - '0') as nat)
    else if 'a' <= c <= 'f' then Some((c - 'a') as nat + 10)
    else None
  }

  /** The UTF-16 unit of `\uXXXX` at the start of the text. */
  function ReadUnit(s: string): (unit: Option<nat>)
    ensures unit.Some? ==> unit.value < 0x10000 && |s| >= 6
  {
    if |s| < 6 || s[0] != '\\' || s[1] != 'u' then None else
    match (HexValue(s[2]), HexValue(s[3]), HexValue(s[4]), HexValue(s[5]))
    case (Some(a), Some(b), Some(c), Some(d)) => Some(((a * 16 + b) * 16 + c) * 16 + d)
    case _ => None
  }

  /** A character written as one unit, or as a pair of surrogates. */
  function ReadUnicode(s: string): (r: Option<(char, string)>)
    ensures r.Some? ==> |r.value.1| < |s|
  {
    match ReadUnit(s)
    case None => None
    case Some(unit) =>
      if unit < 0xd800 || unit >= 0xe000 then Some((unit as char, s[6..]))
      else match ReadUnit(s[6..])
           case Some(low) =>
             if unit < 0xdc00 && 0xdc00 <= low < 0xe000
             then Some(((0x10000 + (unit - 0xd800) * 1024 + (low - 0xdc00)) as char, s[12..])) else None
           case None => None
  }

  /** One character inside quotes. */
  function ReadChar(s: string): (r: Option<(char, string)>)
    ensures r.Some? ==> |r.value.1| < |s|
  {
    if s == "" || s[0] == '"' then None
    else if s[0] != '\\' then Some((s[0], s[1..]))
    else if |s| < 2 then None
    else if s[1] == '"' || s[1] == '\\' then Some((s[1], s[2..]))
    else if s[1] == 'n' then Some(('\n', s[2..]))
    else if s[1] == 'r' then Some(('\r', s[2..]))
    else if s[1] == 't' then Some(('\t', s[2..]))
    else if s[1] == 'f' then Some((12 as char, s[2..]))
    else if s[1] == 'b' then Some((8 as char, s[2..]))
    else ReadUnicode(s)
  }

  /** The characters up to the closing quote, and what follows it. */
  function ReadChars(s: string): (r: Option<(string, string)>)
    ensures r.Some? ==> |r.value.1| < |s|
    decreases |s|
  {
    if s != "" && s[0] == '"' then Some(("", s[1..])) else
    match ReadChar(s)
    case None => None
    case Some((c, rest)) =>
      match ReadChars(rest)
      case None => None
      case Some((more, left)) => Some(([c] + more, left))
  }

  // ---- Numbers -----------------------------------------------------------------------------------

  predicate NumberChar(c: char) {
    Decimal.IsDigit(c) || c == '-' || c == '+' || c == '.' || c == 'e' || c == 'E'
  }

  predicate AllNumberChars(s: string) {
    forall i :: 0 <= i < |s| ==> NumberChar(s[i])
  }

  /** The longest beginning made of characters that numbers have. */
  function NumberText(s: string): (t: string)
    ensures t <= s
  {
    if s == "" || !NumberChar(s[0]) then "" else [s[0]] + NumberText(s[1..])
  }

  predicate IsInteger(t: string) {
    var digits := if t != "" && t[0] == '-' then t[1..] else t;
    digits != "" && Decimal.AllDigits(digits)
  }

  function IntegerOf(t: string): int
    requires IsInteger(t)
  {
    if t[0] == '-' then 0 - Decimal.Parse(t[1..]) else Decimal.Parse(t)
  }

  function ReadNumber(s: string): (r: Option<(Json, string)>)
    ensures r.Some? ==> |r.value.1| < |s|
  {
    var t := NumberText(s);
    if t == "" then None
    else if IsInteger(t) then Some((Num(IntegerOf(t)), s[|t|..]))
    else Some((Float(t, true), s[|t|..]))
  }

  // ---- Values --------------------------------------------------------------------------------------

  function Read(s: string): (r: Option<(Json, string)>)
    ensures r.Some? ==> |r.value.1| < |s|
    decreases |s|, 0
  {
    if "null" <= s then Some((Null, s[4..]))
    else if "true" <= s then Some((Bool(true), s[4..]))
    else if "false" <= s then Some((Bool(false), s[5..]))
    else if s == "" then None
    else if s[0] == '"' then
      (match ReadChars(s[1..])
       case None => None
       case Some((text, rest)) => Some((Str(text), rest)))
    else if s[0] == '[' then
      if |s| > 1 && s[1] == ']' then Some((Arr([]), s[2..])) else
      (match ReadItems(s[1..])
       case None => None
       case Some((items, rest)) => Some((Arr(items), rest)))
    else if s[0] == '{' then
      if |s| > 1 && s[1] == '}' then Some((Obj([]), s[2..])) else
      (match ReadFields(s[1..])
       case None => None
       case Some((fields, rest)) => Some((Obj(fields), rest)))
    else ReadNumber(s)
  }

  /** At least one value, up to the closing bracket. */
  function ReadItems(s: string): (r: Option<(seq<Json>, string)>)
    ensures r.Some? ==> |r.value.1| < |s|
    decreases |s|, 1
  {
    match Read(s)
    case None => None
    case Some((first, rest)) =>
      if rest == "" then None
      else if rest[0] == ']' then Some(([first], rest[1..]))
      else if rest[0] != ',' then None
      else match ReadItems(rest[1..])
           case None => None
           case Some((more, left)) => Some(([first] + more, left))
  }

  /** At least one field, up to the closing brace. */
  function ReadFields(s: string): (r: Option<(Fields, string)>)
    ensures r.Some? ==> |r.value.1| < |s|
    decreases |s|, 1
  {
    if s == "" || s[0] != '"' then None else
    match ReadChars(s[1..])
    case None => None
    case Some((name, colon)) =>
      if colon == "" || colon[0] != ':' then None else
      match Read(colon[1..])
      case None => None
      case Some((value, rest)) =>
        if rest == "" then None
        else if rest[0] == '}' then Some(([Field(name, value)], rest[1..]))
        else if rest[0] != ',' then None
        else match ReadFields(rest[1..])
             case None => None
             case Some((more, left)) => Some(([Field(name, value)] + more, left))
  }

  // ---- Printing and reading ---------------------------------------------------------------------------

  lemma HexReads(n: nat)
    requires n < 16
    ensures HexValue(HexDigit(n)) == Some(n)
  {
  }

  lemma HexParts(unit: nat)
    requires unit < 0x10000
    ensures unit / 4096 < 16
    ensures ((unit / 4096 * 16 + unit / 256 % 16) * 16 + unit / 16 % 16) * 16 + unit % 16 == unit
  {
    var a, b := unit / 256, unit / 16;
    assert a == unit / 4096 * 16 + a % 16;
    assert b == a * 16 + b % 16;
    assert unit == b * 16 + unit % 16;
  }

  lemma UnitReads(unit: nat, rest: string)
    requires unit < 0x10000
    ensures ReadUnit(UnicodeEscape(unit) + rest) == Some(unit)
    ensures (UnicodeEscape(unit) + rest)[6..] == rest
  {
    hide HexValue, HexDigit;
    HexParts(unit);
    HexReads(unit / 4096);
    HexReads(unit / 256 % 16);
    HexReads(unit / 16 % 16);
    HexReads(unit % 16);
  }

  lemma PairReads(c: char, rest: string)
    requires c as int >= 0x10000
    ensures ReadUnicode(EscapeChar(c) + rest) == Some((c, rest))
  {
    hide ReadUnit, UnicodeEscape;
    var v := c as int - 0x10000;
    var high, low := 0xd800 + v / 1024 % 1024, 0xdc00 + v % 1024;
    assert v / 1024 < 1024;
    var text := UnicodeEscape(high) + UnicodeEscape(low) + rest;
    assert EscapeChar(c) + rest == text;
    assert text == UnicodeEscape(high) + (UnicodeEscape(low) + rest);
    UnitReads(high, UnicodeEscape(low) + rest);
    UnitReads(low, rest);
    assert text[12..] == text[6..][6..];
  }

  lemma UnitCharReads(c: char, rest: string)
    requires c as int < 0x10000
    ensures ReadUnicode(UnicodeEscape(c as int) + rest) == Some((c, rest))
  {
    hide ReadUnit, UnicodeEscape;
    UnitReads(c as int, rest);
  }

  lemma UnicodeChar(text: string)
    requires |text| >= 2 && text[0] == '\\' && text[1] == 'u'
    ensures ReadChar(text) == ReadUnicode(text)
  {
    hide ReadUnicode;
  }

  /** A character that has a short form, or needs none. */
  predicate IsShort(c: char) {
    ' ' <= c <= '~' || c == '\n' || c == '\r' || c == '\t' || c as int == 12 || c as int == 8
  }

  lemma ShortReads(c: char, rest: string)
    requires IsShort(c)
    ensures ReadChar(EscapeChar(c) + rest) == Some((c, rest))
    ensures EscapeChar(c) != "" && EscapeChar(c)[0] != '"'
  {
    hide ReadUnicode, UnicodeEscape;
    var text := EscapeChar(c) + rest;
    if |EscapeChar(c)| == 1 {
      assert text[1..] == rest;
    } else {
      assert text[2..] == rest;
    }
  }

  lemma LongEscape(c: char)
    requires !IsShort(c)
    ensures c as int < 0x10000 ==> EscapeChar(c) == UnicodeEscape(c as int)
    ensures |EscapeChar(c)| >= 2 && EscapeChar(c)[0] == '\\' && EscapeChar(c)[1] == 'u'
  {
    hide HexDigit;
  }

  /** One printed character reads back as itself. */
  lemma CharReads(c: char, rest: string)
    ensures ReadChar(EscapeChar(c) + rest) == Some((c, rest))
    ensures EscapeChar(c) != "" && EscapeChar(c)[0] != '"'
  {
    hide ReadUnicode, EscapeChar, ReadChar, UnicodeEscape;
    if IsShort(c) {
      ShortReads(c, rest);
    } else {
      LongEscape(c);
      UnicodeChar(EscapeChar(c) + rest);
      if c as int >= 0x10000 {
        PairReads(c, rest);
      } else {
        UnitCharReads(c, rest);
      }
    }
  }

  lemma {:induction false} CharsRead(s: string, rest: string)
    ensures ReadChars(Escape(s) + "\"" + rest) == Some((s, rest))
  {
    hide EscapeChar, ReadChar;
    if s == "" {
      assert (Escape(s) + "\"" + rest)[1..] == rest;
    } else {
      var tail := Escape(s[1..]) + "\"" + rest;
      assert Escape(s) + "\"" + rest == EscapeChar(s[0]) + tail;
      CharReads(s[0], tail);
      CharsRead(s[1..], rest);
      assert s == [s[0]] + s[1..];
    }
  }

  lemma {:induction false} NumberTextIs(t: string, rest: string)
    requires AllNumberChars(t) && (rest != "" ==> !NumberChar(rest[0]))
    ensures NumberText(t + rest) == t
  {
    if t == "" {
      assert t + rest == rest;
    } else {
      assert (t + rest)[1..] == t[1..] + rest;
      NumberTextIs(t[1..], rest);
      assert t == [t[0]] + t[1..];
    }
  }

  lemma IntegerReads(n: int)
    ensures IsInteger(Decimal.IntText(n)) && IntegerOf(Decimal.IntText(n)) == n && AllNumberChars(Decimal.IntText(n))
    ensures NumberChar(Decimal.IntText(n)[0])
  {
    hide Decimal.Print, Decimal.Parse;
    Decimal.ParsePrint(if n < 0 then -n else n);
    if n < 0 {
      assert Decimal.IntText(n)[1..] == Decimal.Print(-n);
    } else {
      assert Decimal.IsDigit(Decimal.Print(n)[0]);
    }
  }

  /** The printed form of a float is a number, and not one of an integer. */
  predicate IsFloatText(t: string) {
    t != "" && AllNumberChars(t) && !IsInteger(t)
  }

  /** The values that JSON has texts for: no infinities and no NaN. */
  predicate Readable(value: Json)
    decreases value
  {
    match value
    case Float(text, finite) => finite && IsFloatText(text)
    case Arr(items) => forall i :: 0 <= i < |items| ==> Readable(items[i])
    case Obj(fields) => forall i :: 0 <= i < |fields| ==> Readable(fields[i].value)
    case _ => true
  }

  /** What may follow a value without becoming part of it. */
  predicate Stops(rest: string) {
    rest != "" ==> !NumberChar(rest[0])
  }

  lemma NumberReads(value: Json, rest: string)
    requires (value.Num? || value.Float?) && Readable(value) && Stops(rest)
    ensures Read(Encode(value) + rest) == Some((value, rest))
  {
    var t := Encode(value);
    if value.Num? {
      IntegerReads(value.n);
    }
    NumberTextIs(t, rest);
    var s := t + rest;
    assert s[|t|..] == rest && s[0] == t[0] && NumberChar(t[0]);
    NotAWord(s);
  }

  lemma NotAWord(s: string)
    requires s != "" && NumberChar(s[0])
    ensures Read(s) == ReadNumber(s)
  {
    hide ReadNumber, ReadChars, ReadItems, ReadFields;
  }

  lemma WordReads(value: Json, rest: string)
    requires value.Null? || value.Bool?
    ensures Read(Encode(value) + rest) == Some((value, rest))
  {
    var s := Encode(value) + rest;
    hide ReadNumber, ReadChars, ReadItems, ReadFields;
    if value.Null? {
      assert s[4..] == rest;
    } else if value.b {
      assert s[4..] == rest && s[0] == 't';
    } else {
      assert s[5..] == rest && s[0] == 'f';
    }
  }

  lemma QuoteReads(text: string, rest: string)
    ensures Read(Quote(text) + rest) == Some((Str(text), rest))
  {
    hide ReadNumber, ReadItems, ReadFields, ReadChars, Escape;
    var s := Quote(text) + rest;
    assert s[1..] == Escape(text) + "\"" + rest && s[0] == '"';
    CharsRead(text, rest);
  }

  lemma BracketReads(s: string, items: seq<Json>, rest: string)
    requires s != "" && s[0] == '['
    ensures |s| > 1 && s[1] == ']' ==> Read(s) == Some((Arr([]), s[2..]))
    ensures (|s| > 1 ==> s[1] != ']') && ReadItems(s[1..]) == Some((items, rest)) ==> Read(s) == Some((Arr(items), rest))
  {
    hide ReadNumber, ReadItems, ReadFields, ReadChars;
  }

  lemma BraceReads(s: string, fields: Fields, rest: string)
    requires s != "" && s[0] == '{'
    ensures |s| > 1 && s[1] == '}' ==> Read(s) == Some((Obj([]), s[2..]))
    ensures (|s| > 1 ==> s[1] != '}') && ReadFields(s[1..]) == Some((fields, rest)) ==> Read(s) == Some((Obj(fields), rest))
  {
    hide ReadNumber, ReadItems, ReadFields, ReadChars;
  }

  lemma ItemsStep(s: string, first: Json, more: seq<Json>, after: string, rest: string)
    requires Read(s) == Some((first, after)) && after != ""
    ensures after == "]" + rest ==> ReadItems(s) == Some(([first], rest))
    ensures after[0] == ',' && ReadItems(after[1..]) == Some((more, rest)) ==> ReadItems(s) == Some(([first] + more, rest))
  {
    hide Read;
    if after == "]" + rest {
      assert after[1..] == rest;
    }
  }

  lemma FieldsStep(name: string, value: Json, more: Fields, tail: string, after: string, rest: string)
    requires Read(tail) == Some((value, after)) && after != ""
    ensures var s := Quote(name) + ":" + tail;
      && (after == "}" + rest ==> ReadFields(s) == Some(([Field(name, value)], rest)))
      && (after[0] == ',' && ReadFields(after[1..]) == Some((more, rest)) ==>
            ReadFields(s) == Some(([Field(name, value)] + more, rest)))
  {
    hide Read, ReadChars, Escape;
    var s := Quote(name) + ":" + tail;
    assert s[1..] == Escape(name) + "\"" + (":" + tail) && s[0] == '"';
    CharsRead(name, ":" + tail);
    assert (":" + tail)[1..] == tail;
    if after == "}" + rest {
      assert after[1..] == rest;
    }
  }

  lemma EncodeStarts(value: Json)
    requires Readable(value)
    ensures Encode(value) != "" && Encode(value)[0] != ']'
  {
    hide Encode;
    EncodeIs(value);
    if value.Num? {
      IntegerReads(value.n);
    }
  }

  lemma EncodeIs(value: Json)
    ensures match value
      case Null => Encode(value) == "null"
      case Bool(b) => Encode(value) == if b then "true" else "false"
      case Num(n) => Encode(value) == Decimal.IntText(n)
      case Float(text, _) => Encode(value) == text
      case Str(s) => Encode(value) == Quote(s)
      case Arr(items) => Encode(value) == "[" + EncodeItems(items) + "]"
      case Obj(fields) => Encode(value) == "{" + EncodeFields(fields) + "}"
  {
  }

  /** Every value reads back as itself, whatever follows it. */
  lemma {:induction false} Reads(value: Json, rest: string)
    requires Readable(value) && Stops(rest)
    ensures Read(Encode(value) + rest) == Some((value, rest))
    decreases value, 0
  {
    hide Read, Encode, EncodeItems, EncodeFields, ReadItems, ReadFields, Quote;
    EncodeIs(value);
    match value
    case Str(s) => QuoteReads(s, rest);
    case Arr(items) =>
      var s := Encode(value) + rest;
      if items == [] {
        NothingEncoded();
        BracketReads(s, [], rest);
        assert s[2..] == rest;
      } else {
        ItemsRead(items, rest);
        ItemsStart(items);
        assert s[1..] == EncodeItems(items) + "]" + rest;
        BracketReads(s, items, rest);
      }
    case Obj(fields) =>
      var s := Encode(value) + rest;
      if fields == [] {
        NothingEncoded();
        BraceReads(s, [], rest);
        assert s[2..] == rest;
      } else {
        FieldsRead(fields, rest);
        FieldsStart(fields);
        assert s[1..] == EncodeFields(fields) + "}" + rest;
        BraceReads(s, fields, rest);
      }
    case Null => WordReads(value, rest);
    case Bool(_) => WordReads(value, rest);
    case _ => NumberReads(value, rest);
  }

  lemma NothingEncoded()
    ensures EncodeItems([]) == "" && EncodeFields([]) == ""
  {
  }

  lemma ItemsStart(items: seq<Json>)
    requires items != [] && Readable(items[0])
    ensures EncodeItems(items) != "" && EncodeItems(items)[0] != ']'
  {
    hide Encode;
    EncodeStarts(items[0]);
  }

  lemma FieldsStart(fields: Fields)
    requires fields != []
    ensures EncodeFields(fields) != "" && EncodeFields(fields)[0] != '}'
  {
    hide Encode;
    assert Quote(fields[0].name)[0] == '"';
  }

  lemma {:induction false} ItemsRead(items: seq<Json>, rest: string)
    requires items != [] && forall i :: 0 <= i < |items| ==> Readable(items[i])
    ensures ReadItems(EncodeItems(items) + "]" + rest) == Some((items, rest))
    decreases items, 1
  {
    hide Read, Encode, ReadItems, Readable;
    if |items| == 1 {
      Reads(items[0], "]" + rest);
      assert EncodeItems(items) + "]" + rest == Encode(items[0]) + ("]" + rest);
      ItemsStep(Encode(items[0]) + ("]" + rest), items[0], [], "]" + rest, rest);
      assert items == [items[0]];
    } else {
      var tail := "," + (EncodeItems(items[1..]) + "]" + rest);
      Reads(items[0], tail);
      ItemsRead(items[1..], rest);
      assert EncodeItems(items) + "]" + rest == Encode(items[0]) + tail;
      assert tail[1..] == EncodeItems(items[1..]) + "]" + rest;
      ItemsStep(Encode(items[0]) + tail, items[0], items[1..], tail, rest);
      assert items == [items[0]] + items[1..];
    }
  }

  lemma {:induction false} FieldsRead(fields: Fields, rest: string)
    requires fields != [] && forall i :: 0 <= i < |fields| ==> Readable(fields[i].value)
    ensures ReadFields(EncodeFields(fields) + "}" + rest) == Some((fields, rest))
    decreases fields, 1
  {
    hide Read, Encode, ReadFields, Readable, Quote;
    var name, value := fields[0].name, fields[0].value;
    if |fields| == 1 {
      var after := "}" + rest;
      Reads(value, after);
      assert EncodeFields(fields) + "}" + rest == Quote(name) + ":" + (Encode(value) + after);
      FieldsStep(name, value, [], Encode(value) + after, after, rest);
      assert fields == [fields[0]];
    } else {
      var after := "," + (EncodeFields(fields[1..]) + "}" + rest);
      Reads(value, after);
      FieldsRead(fields[1..], rest);
      assert EncodeFields(fields) + "}" + rest == Quote(name) + ":" + (Encode(value) + after);
      assert after[1..] == EncodeFields(fields[1..]) + "}" + rest;
      FieldsStep(name, value, fields[1..], Encode(value) + after, after, rest);
      assert fields == [fields[0]] + fields[1..];
    }
  }

  /** Printing loses nothing: the text of a value reads back as the value, with nothing left over. */
  lemma PrintedReads(value: Json)
    requires Readable(value)
    ensures Read(Encode(value)) == Some((value, ""))
  {
    hide Read, Encode;
    Reads(value, "");
    assert Encode(value) + "" == Encode(value);
  }
}
