/** Shared vocabulary: results, sequences, and the decimal notation of integers. */
module Basics {

  datatype Option<+T> = None | Some(value: T)

  datatype Result<+T, +E> = Ok(value: T) | Err(error: E) {
    predicate IsFailure() {
      Err?
    }

    function PropagateFailure<U>(): Result<U, E>
      requires Err?
    {
      Err(error)
    }

    function Extract(): T
      requires Ok?
    {
      value
    }
  }

  /** The length of the shorter of two bounds. */
  function Min(a: nat, b: nat): nat {
    if a <= b then a else b
  }

  /** The first `n` elements, or everything when there are fewer. */
  function Take<T>(s: seq<T>, n: nat): (r: seq<T>)
    ensures r <= s && |r| == Min(n, |s|)
  {
    s[..Min(n, |s|)]
  }

  /** The texts joined with a separator between neighbours. */
  function Join(parts: seq<string>, separator: string): string {
    if parts == [] then ""
    else if |parts| == 1 then parts[0]
    else parts[0] + separator + Join(parts[1..], separator)
  }
}

/** JavaScript's `trim`. */
module JsText {

  predicate IsSpace(c: char) {
    c == ' ' || 9 <= c as int <= 13 || c as int == 0xa0 || c as int == 0x1680 || 0x2000 <= c as int <= 0x200a
      || c as int == 0x2028 || c as int == 0x2029 || c as int == 0x202f || c as int == 0x205f || c as int == 0x3000
      || c as int == 0xfeff
  }

  function TrimLeft(s: string): string {
    if s != "" && IsSpace(s[0]) then TrimLeft(s[1..]) else s
  }

  function TrimRight(s: string): string {
    if s != "" && IsSpace(s[|s| - 1]) then TrimRight(s[..|s| - 1]) else s
  }

  function Trim(s: string): string {
    TrimRight(TrimLeft(s))
  }

  /** The code points of ECMAScript's WhiteSpace and LineTerminator productions. */
  const SPACES: set<int> := {
    0x9, 0xa, 0xb, 0xc, 0xd, 0x20, 0xa0, 0x1680, 0x2000, 0x2001, 0x2002, 0x2003, 0x2004, 0x2005, 0x2006, 0x2007, 0x2008,
    0x2009, 0x200a, 0x2028, 0x2029, 0x202f, 0x205f, 0x3000, 0xfeff}

  predicate AllSpaces(s: string) {
    forall i :: 0 <= i < |s| ==> s[i] as int in SPACES
  }

  lemma SpacesAre(c: char)
    ensures IsSpace(c) <==> c as int in SPACES
  {
  }

  lemma {:induction false} TrimLeftExactly(spaces: string, core: string)
    requires AllSpaces(spaces) && (core != "" ==> core[0] as int !in SPACES)
    ensures TrimLeft(spaces + core) == core
  {
    hide IsSpace, SPACES;
    if spaces == "" {
      assert spaces + core == core;
      if core != "" {
        SpacesAre(core[0]);
      }
    } else {
      SpacesAre(spaces[0]);
      assert (spaces + core)[1..] == spaces[1..] + core;
      TrimLeftExactly(spaces[1..], core);
    }
  }

  lemma {:induction false} TrimRightExactly(core: string, spaces: string)
    requires AllSpaces(spaces) && (core != "" ==> core[|core| - 1] as int !in SPACES)
    ensures TrimRight(core + spaces) == core
  {
    hide IsSpace, SPACES;
    if spaces == "" {
      assert core + spaces == core;
      if core != "" {
        SpacesAre(core[|core| - 1]);
      }
    } else {
      SpacesAre(spaces[|spaces| - 1]);
      assert (core + spaces)[..|core + spaces| - 1] == core + spaces[..|spaces| - 1];
      TrimRightExactly(core, spaces[..|spaces| - 1]);
    }
  }

  /** Trimming takes off the blanks at both ends and nothing else. */
  lemma TrimExactly(left: string, core: string, right: string)
    requires AllSpaces(left) && AllSpaces(right)
    requires core != "" ==> core[0] as int !in SPACES && core[|core| - 1] as int !in SPACES
    ensures Trim(left + core + right) == core
  {
    hide IsSpace, SPACES;
    if core == "" {
      assert left + core + right == (left + right) + "";
      TrimLeftExactly(left + right, "");
    } else {
      assert left + core + right == left + (core + right);
      TrimLeftExactly(left, core + right);
      TrimRightExactly(core, right);
    }
  }
}

/** Python's and JavaScript's decimal notation: printing, parsing, and why they agree. */
module Decimal {

  predicate IsDigit(c: char) {
    '0' <= c <= '9'
  }

  predicate AllDigits(s: string) {
    forall i :: 0 <= i < |s| ==> IsDigit(s[i])
  }

  function DigitChar(d: nat): (c: char)
    requires d < 10
    ensures IsDigit(c)
  {
    '0' + d as char
  }

  function DigitValue(c: char): nat
    requires IsDigit(c)
  {
    (c - '0') as nat
  }

  function Power10(k: nat): (p: nat)
    ensures p >= 1
  {
    if k == 0 then 1 else 10 * Power10(k - 1)
  }

  /** The decimal digits of `n`, without leading zeros. */
  function Print(n: nat): (s: string)
    ensures |s| >= 1 && AllDigits(s)
  {
    if n < 10 then [DigitChar(n)] else Print(n / 10) + [DigitChar(n % 10)]
  }

  /** The number that a text of digits denotes. */
  function Parse(s: string): nat
    requires AllDigits(s)
  {
    if s == "" then 0 else 10 * Parse(s[..|s| - 1]) + DigitValue(s[|s| - 1])
  }

  lemma {:induction false} ParsePrint(n: nat)
    ensures Parse(Print(n)) == n
  {
    var s := Print(n);
    if n >= 10 {
      ParsePrint(n / 10);
      assert s[..|s| - 1] == Print(n / 10);
    } else {
      assert s[..|s| - 1] == "";
    }
  }

  lemma PrintInjective(m: nat, n: nat)
    requires Print(m) == Print(n)
    ensures m == n
  {
    ParsePrint(m);
    ParsePrint(n);
  }

  lemma {:induction false} PrintLength(n: nat, k: nat)
    requires k >= 1 && n < Power10(k)
    ensures |Print(n)| <= k
  {
    if n >= 10 {
      PrintLength(n / 10, k - 1);
    }
  }

  /** `str(i)` of a Python integer. */
  function IntText(i: int): (s: string)
    ensures |s| >= 1
  {
    if i < 0 then "-" + Print(-i) else Print(i)
  }

  /** The texts accepted by the pattern `-?[0-9]{1,20}`. */
  predicate IsCursorNumber(s: string) {
    var digits := if |s| > 0 && s[0] == '-' then s[1..] else s;
    1 <= |digits| <= 20 && AllDigits(digits)
  }

  /** `int(s)` of a text the pattern accepts. */
  function ParseInt(s: string): int
    requires IsCursorNumber(s)
  {
    if s[0] == '-' then 0 - Parse(s[1..]) else Parse(s)
  }

  /** Every integer of at most twenty digits, so every 64-bit one, survives print and parse. */
  lemma IntRoundTrip(i: int)
    requires 0 - Power10(20) < i < Power10(20)
    ensures IsCursorNumber(IntText(i)) && ParseInt(IntText(i)) == i
    ensures |IntText(i)| <= 21
    ensures IntText(i)[0] == '-' <==> i < 0
  {
    var n := if i < 0 then -i else i;
    PrintLength(n, 20);
    ParsePrint(n);
    if i < 0 {
      assert IntText(i)[1..] == Print(n);
    } else {
      assert IsDigit(Print(i)[0]);
    }
  }

  lemma SixtyFourBits()
    ensures Power10(20) > 18_446_744_073_709_551_615
  {
    assert Power10(5) == 100_000;
    assert Power10(10) == 100_000 * Power10(5);
    assert Power10(15) == 100_000 * Power10(10);
    assert Power10(20) == 100_000 * Power10(15);
  }
}
