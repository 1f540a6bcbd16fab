/** The regular expressions of the source as data, and what matching a whole text means. */
module Regexes {
  import opened Basics

  datatype Range = Range(first: char, last: char)

  datatype Regex =
    | Text(s: string)
    | Chars(ranges: seq<Range>, negated: bool)
    | Then(a: Regex, b: Regex)
    | Or(a: Regex, b: Regex)
    | Times(r: Regex, low: nat, high: Option<nat>)

  predicate InRange(c: char, range: Range) {
    range.first <= c <= range.last
  }

  predicate InClass(c: char, ranges: seq<Range>) {
    exists i :: 0 <= i < |ranges| && InRange(c, ranges[i])
  }

  /** `re.fullmatch(r, s)`. */
  predicate Matches(r: Regex, s: string)
    decreases r, 0
  {
    match r
    case Text(t) => s == t
    case Chars(ranges, negated) => |s| == 1 && InClass(s[0], ranges) != negated
    case Then(a, b) => exists k :: 0 <= k <= |s| && Matches(a, s[..k]) && Matches(b, s[k..])
    case Or(a, b) => Matches(a, s) || Matches(b, s)
    case Times(inner, low, high) => Repeats(inner, low, high, s)
  }

  /** At least `low` and at most `high` copies; a copy after the required ones is never empty. */
  predicate Repeats(r: Regex, low: nat, high: Option<nat>, s: string)
    decreases r, 1 + |s|
  {
    if s == "" then low == 0 || Matches(r, s)
    else high != Some(0) && exists k :: 1 <= k <= |s| && Matches(r, s[..k]) && Repeats(r, Less(low), LessBound(high), s[k..])
  }

  function Less(n: nat): nat {
    if n == 0 then 0 else n - 1
  }

  function LessBound(n: Option<nat>): Option<nat> {
    match n
    case None => None
    case Some(m) => Some(Less(m))
  }

  function Optional(r: Regex): Regex {
    Times(r, 0, Some(1))
  }

  predicate AllInClass(s: string, ranges: seq<Range>) {
    forall i :: 0 <= i < |s| ==> InClass(s[i], ranges)
  }

  /** A repeated class is a text of that length whose every character is in the class. */
  lemma {:induction false} RepeatedClass(ranges: seq<Range>, low: nat, high: Option<nat>, s: string)
    ensures Repeats(Chars(ranges, false), low, high, s) <==>
      low <= |s| && (high.Some? ==> |s| <= high.value) && AllInClass(s, ranges)
    decreases |s|
  {
    hide InClass;
    if s != "" {
      RepeatedClass(ranges, Less(low), LessBound(high), s[1..]);
      assert Matches(Chars(ranges, false), s[..1]) <==> InClass(s[0], ranges);
      assert AllInClass(s, ranges) <==> InClass(s[0], ranges) && AllInClass(s[1..], ranges);
    }
  }

  lemma Itself(t: string)
    ensures Matches(Text(t), t)
  {
  }

  lemma MatchesThen(a: Regex, b: Regex, x: string, y: string)
    requires Matches(a, x) && Matches(b, y)
    ensures Matches(Then(a, b), x + y)
  {
    assert (x + y)[..|x|] == x && (x + y)[|x|..] == y;
  }

  lemma ThenSplit(a: Regex, b: Regex, s: string) returns (k: nat)
    requires Matches(Then(a, b), s)
    ensures k <= |s| && Matches(a, s[..k]) && Matches(b, s[k..])
  {
    k :| 0 <= k <= |s| && Matches(a, s[..k]) && Matches(b, s[k..]);
  }

  lemma ThenText(t: string, r: Regex, s: string)
    ensures Matches(Then(Text(t), r), s) <==> t <= s && Matches(r, s[|t|..])
  {
    if t <= s {
      assert s[..|t|] == t;
    }
  }

  lemma ThenEnds(r: Regex, t: string, s: string)
    ensures Matches(Then(r, Text(t)), s) <==> |t| <= |s| && s[|s| - |t|..] == t && Matches(r, s[..|s| - |t|])
  {
    if Matches(Then(r, Text(t)), s) {
      var k :| 0 <= k <= |s| && Matches(r, s[..k]) && Matches(Text(t), s[k..]);
      assert k == |s| - |t|;
    }
  }

  lemma ThenClass(ranges: seq<Range>, r: Regex, s: string)
    ensures Matches(Then(Chars(ranges, false), r), s) <==> s != "" && InClass(s[0], ranges) && Matches(r, s[1..])
  {
    hide InClass;
    if s != "" {
      assert s[..1] == [s[0]];
    }
    if Matches(Then(Chars(ranges, false), r), s) {
      var k :| 0 <= k <= |s| && Matches(Chars(ranges, false), s[..k]) && Matches(r, s[k..]);
    }
  }

  lemma TimesIs(r: Regex, low: nat, high: Option<nat>, s: string)
    ensures Matches(Times(r, low, high), s) <==> Repeats(r, low, high, s)
  {
    hide Repeats;
  }
}
