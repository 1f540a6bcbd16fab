/** Channel slugs: cleaning a name, and probing for a free one. */
module Slugs {
  import opened Basics
  import opened JsText
  import Decimal
  import R = Regexes

  predicate Safe(c: char) {
    'a' <= c <= 'z' || '0' <= c <= '9' || c == '.' || c == '_' || c == '-'
  }

  predicate AllSafe(s: string) {
    forall i :: 0 <= i < |s| ==> Safe(s[i])
  }

  predicate EndMark(c: char) {
    c == '-' || c == '.'
  }

  /** A name that can stand as one path component. */
  predicate IsSlug(s: string) {
    s != "" && AllSafe(s) && !EndMark(s[0]) && !EndMark(s[|s| - 1])
  }

  function DropSigil(s: string): string {
    if s != "" && (s[0] == '#' || s[0] == '@') then s[1..] else s
  }

  /** Every run of unsafe characters becomes one dash. */
  function Squash(s: string, inRun: bool): (r: string)
    ensures AllSafe(r)
  {
    if s == "" then ""
    else if Safe(s[0]) then [s[0]] + Squash(s[1..], false)
    else (if inRun then "" else "-") + Squash(s[1..], true)
  }

  function DropLeft(s: string): (r: string)
    ensures r == "" || !EndMark(r[0])
    ensures AllSafe(s) ==> AllSafe(r)
  {
    if s != "" && EndMark(s[0]) then DropLeft(s[1..]) else s
  }

  function DropRight(s: string): (r: string)
    ensures r <= s && (r == "" || !EndMark(r[|r| - 1]))
    ensures AllSafe(s) ==> AllSafe(r)
  {
    if s != "" && EndMark(s[|s| - 1]) then DropRight(s[..|s| - 1]) else s
  }

  /** The inner `clean`; `lower` is `toLowerCase`. */
  function Clean(s: string, lower: string -> string): (r: string)
    ensures r == "" || IsSlug(r)
  {
    DropRight(DropLeft(Squash(DropSigil(lower(Trim(s))), false)))
  }

  /** Always one safe path component, whatever the name and the id are. */
  function Slugify(name: Option<string>, fallbackId: string, lower: string -> string): (r: string)
    ensures IsSlug(r)
  {
    var base := Clean(if name.Some? then name.value else "", lower);
    if base != "" then base
    else
      var id := Clean(fallbackId, lower);
      "id-" + if id != "" then id else "unknown"
  }

  // ---- What cleaning leaves of a text -------------------------------------------------------------------------

  /** The class `[a-z0-9._-]` of the pattern that squashes everything else. */
  const SAFE_CHARS := [R.Range('a', 'z'), R.Range('0', '9'), R.Range('.', '.'), R.Range('_', '_'), R.Range('-', '-')]

  lemma SafeMeans(c: char)
    ensures Safe(c) <==> R.InClass(c, SAFE_CHARS)
  {
    var i := if 'a' <= c <= 'z' then 0 else if '0' <= c <= '9' then 1 else if c == '.' then 2 else if c == '_' then 3 else 4;
    if Safe(c) {
      assert R.InRange(c, SAFE_CHARS[i]);
    }
  }

  /** Nothing that could stand at the end of a slug: unsafe characters, dashes and dots. */
  predicate AllIdle(s: string) {
    forall i :: 0 <= i < |s| ==> !Safe(s[i]) || s[i] == '-' || s[i] == '.'
  }

  predicate AllMarks(s: string) {
    forall i :: 0 <= i < |s| ==> s[i] == '-' || s[i] == '.'
  }

  predicate NoneSafe(s: string) {
    forall i :: 0 <= i < |s| ==> !Safe(s[i])
  }

  lemma {:induction false} SquashIdle(idle: string, rest: string, inRun: bool) returns (marks: string)
    requires AllIdle(idle) && (rest != "" ==> Safe(rest[0]))
    ensures AllMarks(marks) && Squash(idle + rest, inRun) == marks + Squash(rest, false)
  {
    if idle == "" {
      marks := "";
      assert idle + rest == rest && marks + Squash(rest, false) == Squash(rest, false);
    } else {
      var c := idle[0];
      var more := SquashIdle(idle[1..], rest, !Safe(c));
      assert (idle + rest)[1..] == idle[1..] + rest;
      var first := if Safe(c) then [c] else if inRun then "" else "-";
      marks := first + more;
      assert marks + Squash(rest, false) == first + (more + Squash(rest, false));
    }
  }

  lemma {:induction false} SquashWord(word: string, rest: string)
    requires AllSafe(word)
    ensures Squash(word + rest, false) == word + Squash(rest, false)
  {
    if word == "" {
      assert word + rest == rest;
    } else {
      assert (word + rest)[1..] == word[1..] + rest;
      SquashWord(word[1..], rest);
      assert word == [word[0]] + word[1..];
    }
  }

  lemma {:induction false} SquashGap(gap: string, rest: string, inRun: bool)
    requires gap != "" && NoneSafe(gap) && (rest != "" ==> Safe(rest[0]))
    ensures Squash(gap + rest, inRun) == (if inRun then "" else "-") + Squash(rest, false)
  {
    assert (gap + rest)[1..] == gap[1..] + rest;
    if |gap| > 1 {
      SquashGap(gap[1..], rest, true);
    } else {
      assert gap[1..] + rest == rest;
      assert Squash(rest, true) == Squash(rest, false);
    }
  }

  /** Words with gaps between them. */
  function Spaced(words: seq<string>, gaps: seq<string>): string
    requires |words| == |gaps| + 1
  {
    if gaps == [] then words[0] else words[0] + gaps[0] + Spaced(words[1..], gaps[1..])
  }

  ghost predicate Words(words: seq<string>) {
    && words != []
    && (forall i :: 0 <= i < |words| ==> words[i] != "" && AllSafe(words[i]))
    && words[0][0] != '-' && words[0][0] != '.'
    && var last := words[|words| - 1]; last[|last| - 1] != '-' && last[|last| - 1] != '.'
  }

  ghost predicate Gaps(gaps: seq<string>) {
    forall i :: 0 <= i < |gaps| ==> gaps[i] != "" && NoneSafe(gaps[i])
  }

  ghost predicate SafeWords(words: seq<string>) {
    forall i :: 0 <= i < |words| ==> words[i] != "" && AllSafe(words[i])
  }

  lemma {:induction false} SquashSpaced(words: seq<string>, gaps: seq<string>, idle: string) returns (marks: string)
    requires |words| == |gaps| + 1 && SafeWords(words) && Gaps(gaps) && AllIdle(idle)
    ensures AllMarks(marks) && Squash(Spaced(words, gaps) + idle, false) == Join(words, "-") + marks
  {
    hide Safe, AllSafe, NoneSafe, AllIdle, AllMarks, Squash;
    if gaps == [] {
      SquashWord(words[0], idle);
      marks := SquashTail(idle);
    } else {
      var more := Spaced(words[1..], gaps[1..]) + idle;
      marks := SquashSpaced(words[1..], gaps[1..], idle);
      SpacedStarts(words[1..], gaps[1..], idle);
      SquashGap(gaps[0], more, false);
      SquashWord(words[0], gaps[0] + more);
      assert Spaced(words, gaps) + idle == words[0] + (gaps[0] + more);
      assert words[0] + ("-" + (Join(words[1..], "-") + marks)) == Join(words, "-") + marks;
    }
  }

  lemma SquashTail(idle: string) returns (marks: string)
    requires AllIdle(idle)
    ensures AllMarks(marks) && Squash(idle, false) == marks
  {
    marks := SquashIdle(idle, "", false);
    assert idle + "" == idle && marks + "" == marks;
  }

  lemma SpacedStarts(words: seq<string>, gaps: seq<string>, idle: string)
    requires |words| == |gaps| + 1 && SafeWords(words)
    ensures var text := Spaced(words, gaps) + idle; text != "" && text[0] == words[0][0] && Safe(text[0])
  {
  }

  lemma {:induction false} DropLeftExactly(marks: string, core: string)
    requires AllMarks(marks) && (core != "" ==> core[0] != '-' && core[0] != '.')
    ensures DropLeft(marks + core) == core
  {
    if marks == "" {
      assert marks + core == core;
    } else {
      assert (marks + core)[1..] == marks[1..] + core;
      DropLeftExactly(marks[1..], core);
    }
  }

  lemma {:induction false} DropRightExactly(core: string, marks: string)
    requires AllMarks(marks) && (core != "" ==> core[|core| - 1] != '-' && core[|core| - 1] != '.')
    ensures DropRight(core + marks) == core
  {
    if marks == "" {
      assert core + marks == core;
    } else {
      assert (core + marks)[..|core + marks| - 1] == core + marks[..|marks| - 1];
      DropRightExactly(core, marks[..|marks| - 1]);
    }
  }

  lemma {:induction false} JoinEnds(words: seq<string>)
    requires SafeWords(words) && words != []
    ensures var text, last := Join(words, "-"), words[|words| - 1];
      text != "" && text[0] == words[0][0] && text[|text| - 1] == last[|last| - 1]
  {
    hide AllSafe;
    if |words| > 1 {
      var rest := Join(words[1..], "-");
      JoinEnds(words[1..]);
      assert Join(words, "-") == words[0] + "-" + rest;
      assert words[1..][|words| - 2] == words[|words| - 1];
    }
  }

  /** The part of a text that cleaning sees: trimmed, lower-cased, without one leading `#` or `@`. */
  function Visible(s: string, lower: string -> string): string {
    var text := lower(Trim(s));
    if text != "" && text[0] in {'#', '@'} then text[1..] else text
  }

  lemma CleanIs(s: string, lower: string -> string)
    ensures Clean(s, lower) == DropRight(DropLeft(Squash(Visible(s, lower), false)))
  {
    hide Squash, Trim, DropLeft, DropRight;
  }

  lemma MarksDropped(left: string, core: string, right: string)
    requires AllMarks(left) && AllMarks(right) && core != ""
    requires core[0] != '-' && core[0] != '.' && core[|core| - 1] != '-' && core[|core| - 1] != '.'
    ensures DropRight(DropLeft(left + (core + right))) == core
  {
    hide AllMarks, DropLeft, DropRight;
    DropLeftExactly(left, core + right);
    DropRightExactly(core, right);
  }

  lemma SquashedWords(before: string, words: seq<string>, gaps: seq<string>, after: string) returns (left: string, right: string)
    requires |words| == |gaps| + 1 && SafeWords(words) && Gaps(gaps) && AllIdle(before) && AllIdle(after)
    ensures AllMarks(left) && AllMarks(right)
    ensures Squash(before + Spaced(words, gaps) + after, false) == left + (Join(words, "-") + right)
  {
    hide Safe, AllSafe, NoneSafe, AllIdle, AllMarks, Squash, Gaps, SafeWords;
    var body := Spaced(words, gaps) + after;
    assert before + Spaced(words, gaps) + after == before + body;
    SpacedStarts(words, gaps, after);
    left := SquashIdle(before, body, false);
    right := SquashSpaced(words, gaps, after);
  }

  /** Words of safe characters survive, each run of other characters between two of them becomes one dash, and
      whatever dashes, dots and other characters surround them goes. */
  lemma CleanKeepsWords(s: string, lower: string -> string, before: string, words: seq<string>, gaps: seq<string>, after: string)
    requires |words| == |gaps| + 1 && Words(words) && Gaps(gaps) && AllIdle(before) && AllIdle(after)
    requires Visible(s, lower) == before + Spaced(words, gaps) + after
    ensures Clean(s, lower) == Join(words, "-")
  {
    hide AllSafe, AllIdle, AllMarks, Squash, DropLeft, DropRight, Gaps, Clean, Visible, Spaced, Join;
    var left, right := SquashedWords(before, words, gaps, after);
    CleanIs(s, lower);
    JoinEnds(words);
    MarksDropped(left, Join(words, "-"), right);
  }

  /** A text without any word cleans to nothing. */
  lemma CleanOfIdle(s: string, lower: string -> string)
    requires AllIdle(Visible(s, lower))
    ensures Clean(s, lower) == ""
  {
    hide Safe, AllIdle, AllMarks, Squash, Visible, Clean, DropLeft, DropRight;
    CleanIs(s, lower);
    var marks := SquashTail(Visible(s, lower));
    assert marks + "" == marks && "" + "" == "";
    DropLeftExactly(marks, "");
    DropRightExactly("", "");
    NoMarks();
  }

  lemma NoMarks()
    ensures AllMarks("")
  {
  }

  /** A name without a word gives way to the id, and an id without one to a fixed text. */
  lemma SlugOfIdle(name: Option<string>, id: string, lower: string -> string)
    requires AllIdle(Visible(if name.Some? then name.value else "", lower))
    ensures Slugify(name, id, lower) == "id-" + if Clean(id, lower) != "" then Clean(id, lower) else "unknown"
    ensures AllIdle(Visible(id, lower)) ==> Slugify(name, id, lower) == "id-unknown"
  {
    hide Clean, Visible, AllIdle;
    CleanOfIdle(if name.Some? then name.value else "", lower);
    if AllIdle(Visible(id, lower)) {
      CleanOfIdle(id, lower);
      assert "id-" + "unknown" == "id-unknown";
    }
  }

  /** A name with a word is used, whatever the id is. */
  lemma SlugOfWords(name: string, id: string, lower: string -> string, before: string, words: seq<string>, gaps: seq<string>, after: string)
    requires |words| == |gaps| + 1 && Words(words) && Gaps(gaps) && AllIdle(before) && AllIdle(after)
    requires Visible(name, lower) == before + Spaced(words, gaps) + after
    ensures Slugify(Some(name), id, lower) == Join(words, "-")
  {
    hide Visible, AllIdle, Gaps, Clean, Spaced;
    CleanKeepsWords(name, lower, before, words, gaps, after);
    JoinEnds(words);
  }

  /** Text that can end a slug. */
  predicate EndsSlug(s: string) {
    s != "" && AllSafe(s) && !EndMark(s[|s| - 1])
  }

  lemma SafeParts(a: string, b: string)
    ensures AllSafe(a + b) <==> AllSafe(a) && AllSafe(b)
  {
    hide Safe;
    assert forall i :: 0 <= i < |a| ==> (a + b)[i] == a[i];
    assert forall i :: 0 <= i < |b| ==> (a + b)[|a| + i] == b[i];
  }

  /** A slug with a dash and a tail stays one exactly when the tail can end a slug. */
  lemma TailedSlug(slug: string, tail: string)
    requires IsSlug(slug)
    ensures IsSlug(slug + "-" + tail) <==> EndsSlug(tail)
  {
    SafeParts(slug, "-" + tail);
    SafeParts("-", tail);
    assert slug + ("-" + tail) == slug + "-" + tail;
    assert AllSafe("-");
    if tail == "" {
      assert (slug + "-" + tail)[|slug|] == '-';
    }
  }

  lemma {:induction false} SquashKeeps(s: string)
    requires AllSafe(s)
    ensures Squash(s, false) == s
  {
    if s != "" {
      SquashKeeps(s[1..]);
    }
  }

  lemma NothingToStrip(slug: string)
    requires IsSlug(slug)
    ensures Trim(slug) == slug && DropSigil(slug) == slug
    ensures DropLeft(slug) == slug && DropRight(slug) == slug
  {
    assert Safe(slug[0]) && Safe(slug[|slug| - 1]);
  }

  /** A slug is its own slug: cleaning is idempotent, as long as lower-casing leaves safe text alone. */
  lemma SlugifyIsStable(slug: string, fallbackId: string, lower: string -> string)
    requires IsSlug(slug) && lower(slug) == slug
    ensures Slugify(Some(slug), fallbackId, lower) == slug
  {
    hide Trim, DropSigil, Squash, DropLeft, DropRight, AllSafe, Safe, EndMark;
    NothingToStrip(slug);
    SquashKeeps(slug);
    assert Clean(slug, lower) == slug;
  }

  // ---- Probing -------------------------------------------------------------------------------------------

  /** The names tried in turn: `desired`, `desired-id`, `desired-id-2`, … for a registration, and
      `base`, `base-2`, `base-3`, … for an imported channel. */
  datatype Series = Registration(desired: string, id: string) | Legacy(base: string)

  function Candidate(series: Series, n: nat): string {
    match series
    case Registration(desired, id) =>
      if n == 0 then desired
      else if n == 1 then desired + "-" + id
      else desired + "-" + id + "-" + Decimal.Print(n)
    case Legacy(base) =>
      if n == 0 then base else base + "-" + Decimal.Print(n + 1)
  }

  /** Which names of a registration are still one safe path component: the cleaned name always, the one with
      the channel id exactly when the id can end a slug, the numbered ones exactly when the id is safe text. */
  lemma CandidateIsSlug(desired: string, id: string, n: nat)
    requires IsSlug(desired)
    ensures IsSlug(Candidate(Registration(desired, id), n)) <==> n == 0 || (n == 1 && EndsSlug(id)) || (n >= 2 && AllSafe(id))
  {
    if n == 1 {
      TailedSlug(desired, id);
    } else if n >= 2 {
      var number := Decimal.Print(n);
      assert forall i :: 0 <= i < |number| ==> Decimal.IsDigit(number[i]);
      assert EndsSlug(number);
      var tail := id + "-" + number;
      SafeParts(id, "-" + number);
      SafeParts("-", number);
      assert id + ("-" + number) == tail;
      assert AllSafe("-");
      assert tail[|tail| - 1] == number[|number| - 1];
      TailedSlug(desired, tail);
      assert desired + "-" + tail == desired + "-" + id + "-" + number;
    }
  }

  lemma SuffixInjective(prefix: string, m: nat, n: nat)
    requires prefix + Decimal.Print(m) == prefix + Decimal.Print(n)
    ensures m == n
  {
    assert (prefix + Decimal.Print(m))[|prefix|..] == Decimal.Print(m);
    assert (prefix + Decimal.Print(n))[|prefix|..] == Decimal.Print(n);
    Decimal.PrintInjective(m, n);
  }

  lemma CandidatesDiffer(series: Series, m: nat, n: nat)
    requires m < n
    ensures Candidate(series, m) != Candidate(series, n)
  {
    if Candidate(series, m) == Candidate(series, n) {
      match series
      case Registration(desired, id) =>
        if m >= 2 {
          SuffixInjective(desired + "-" + id + "-", m, n);
        }
      case Legacy(base) =>
        if m >= 1 {
          SuffixInjective(base + "-", m + 1, n + 1);
        }
    }
  }

  function Tried(series: Series, n: nat): set<string> {
    set m: nat | m < n :: Candidate(series, m)
  }

  lemma NotTried(series: Series, n: nat)
    ensures Candidate(series, n) !in Tried(series, n)
  {
    hide Candidate;
    forall m: nat | m < n ensures Candidate(series, m) != Candidate(series, n) {
      CandidatesDiffer(series, m, n);
    }
  }

  lemma {:induction false} TriedCount(series: Series, n: nat)
    ensures |Tried(series, n)| == n
  {
    hide Candidate;
    if n == 0 {
      assert Tried(series, 0) == {};
    } else {
      TriedCount(series, n - 1);
      NotTried(series, n - 1);
      assert Tried(series, n) == Tried(series, n - 1) + {Candidate(series, n - 1)};
    }
  }

  lemma SubsetCount(a: set<string>, b: set<string>)
    requires a <= b
    ensures |a| <= |b|
  {
    if a != {} {
      var x :| x in a;
      SubsetCount(a - {x}, b - {x});
    }
  }

  /** Finitely many taken names cannot hold every candidate. */
  lemma Pigeonhole(series: Series, taken: set<string>, n: nat)
    requires forall m: nat :: m < n ==> Candidate(series, m) in taken
    ensures n <= |taken|
  {
    TriedCount(series, n);
    SubsetCount(Tried(series, n), taken);
  }

  ghost predicate AllTaken(series: Series, taken: set<string>, n: nat) {
    forall m: nat :: m < n ==> Candidate(series, m) in taken
  }

  /** The first candidate that is not taken. */
  ghost predicate IsFirstFree(series: Series, taken: set<string>, slug: string) {
    slug !in taken && exists n: nat :: slug == Candidate(series, n) && AllTaken(series, taken, n)
  }

  lemma FirstFreeUnique(series: Series, taken: set<string>, a: string, b: string)
    requires IsFirstFree(series, taken, a) && IsFirstFree(series, taken, b)
    ensures a == b
  {
    var m: nat :| a == Candidate(series, m) && AllTaken(series, taken, m);
    var n: nat :| b == Candidate(series, n) && AllTaken(series, taken, n);
  }

  /** The first free name of a registration in words: the cleaned name, or else that name with the id, or else with
      the least number from 2 on that makes it free. */
  lemma FirstFreeOfRegistration(desired: string, id: string, taken: set<string>, slug: string)
    requires IsFirstFree(Registration(desired, id), taken, slug)
    ensures desired !in taken ==> slug == desired
    ensures desired in taken && desired + "-" + id !in taken ==> slug == desired + "-" + id
    ensures desired in taken && desired + "-" + id in taken ==>
      exists n: nat :: n >= 2 && slug == desired + "-" + id + "-" + Decimal.Print(n) && slug !in taken
        && forall m: nat :: 2 <= m < n ==> desired + "-" + id + "-" + Decimal.Print(m) in taken
  {
    hide Decimal.Print;
    var series := Registration(desired, id);
    var n: nat :| slug == Candidate(series, n) && AllTaken(series, taken, n);
    assert Candidate(series, 0) == desired && Candidate(series, 1) == desired + "-" + id;
    assert n > 0 ==> Candidate(series, 0) in taken;
    assert n > 1 ==> Candidate(series, 1) in taken;
    forall m: nat | 2 <= m < n ensures desired + "-" + id + "-" + Decimal.Print(m) in taken {
      assert Candidate(series, m) in taken;
    }
  }

  /** And of an imported channel: its slug, or else with the least free number from 2 on. */
  lemma FirstFreeOfLegacy(base: string, taken: set<string>, slug: string)
    requires IsFirstFree(Legacy(base), taken, slug)
    ensures base !in taken ==> slug == base
    ensures base in taken ==>
      exists n: nat :: n >= 2 && slug == base + "-" + Decimal.Print(n) && slug !in taken
        && forall m: nat :: 2 <= m < n ==> base + "-" + Decimal.Print(m) in taken
  {
    hide Decimal.Print;
    var series := Legacy(base);
    var n: nat :| slug == Candidate(series, n) && AllTaken(series, taken, n);
    assert Candidate(series, 0) == base;
    assert n > 0 ==> Candidate(series, 0) in taken;
    if base in taken {
      assert slug == base + "-" + Decimal.Print(n + 1);
      forall m: nat | 2 <= m < n + 1 ensures base + "-" + Decimal.Print(m) in taken {
        assert Candidate(series, m - 1) in taken;
      }
    }
  }

  function FirstFreeFrom(series: Series, taken: set<string>, n: nat): (slug: string)
    requires AllTaken(series, taken, n)
    ensures IsFirstFree(series, taken, slug)
    decreases |taken| + 1 - n
  {
    if Candidate(series, n) !in taken then Candidate(series, n)
    else
      Pigeonhole(series, taken, n + 1);
      FirstFreeFrom(series, taken, n + 1)
  }

  function FirstFree(series: Series, taken: set<string>): (slug: string)
    ensures IsFirstFree(series, taken, slug)
    ensures Candidate(series, 0) !in taken ==> slug == Candidate(series, 0)
  {
    FirstFreeFrom(series, taken, 0)
  }
}

/** `upsertChannelEntry`: a slug allocated once, and a type and platform written once. */
module ChannelIndex {
  import opened Basics
  import opened Slugs

  const KNOWN_TYPES: set<string> := {"channel", "group", "mpim", "im"}

  /** What the callers pass, and what the record stores: absent and null are `None`. */
  datatype Fields = Fields(name: Option<string>, kind: Option<string>, isDM: Option<bool>, platform: Option<string>)

  datatype Entry = Entry(slug: string, fields: Fields)

  /** The slug column and the parsed record. */
  datatype Row = Row(slug: string, entry: Entry)

  type Table = map<string, Row>

  datatype Environment = Environment(platforms: set<string>, lower: string -> string)

  function Or<T>(a: Option<T>, b: Option<T>): Option<T> {
    if a.Some? then a else b
  }

  function Stored(rows: Table, id: string): Fields {
    if id in rows then rows[id].entry.fields else Fields(None, None, None, None)
  }

  predicate Known(values: set<string>, value: Option<string>) {
    value.Some? && value.value in values
  }

  /** A known value stays; otherwise a known new one wins, and then whichever is there. */
  function WriteOnce(values: set<string>, stored: Option<string>, given: Option<string>): Option<string> {
    if Known(values, stored) then stored
    else if Known(values, given) then given
    else Or(Or(stored, given), Some(""))
  }

  function Merged(env: Environment, stored: Fields, given: Fields, id: string): Fields {
    Fields(
      Or(Or(given.name, stored.name), Some(id)),
      WriteOnce(KNOWN_TYPES, stored.kind, given.kind),
      Or(Or(given.isDM, stored.isDM), Some(false)),
      WriteOnce(env.platforms, stored.platform, given.platform))
  }

  predicate HasSlug(rows: Table, id: string) {
    id in rows && rows[id].slug != ""
  }

  /** The slugs of every other channel. */
  function OtherSlugs(rows: Table, id: string): set<string> {
    set other | other in rows && other != id :: rows[other].slug
  }

  function SlugFor(env: Environment, rows: Table, id: string, name: Option<string>): string {
    if HasSlug(rows, id) then rows[id].slug
    else FirstFree(Registration(Slugify(name, id, env.lower), env.lower(id)), OtherSlugs(rows, id))
  }

  /** One call, atomic under the immediate transaction: `None` is the refusal when a new channel finds no
      registration capacity. */
  function Upserted(env: Environment, rows: Table, id: string, given: Fields, room: bool): Option<Table> {
    if id !in rows && !room then None
    else
      var slug := SlugFor(env, rows, id, given.name);
      Some(rows[id := Row(slug, Entry(slug, Merged(env, Stored(rows, id), given, id)))])
  }

  ghost predicate UniqueSlugs(rows: Table) {
    forall a, b :: a in rows && b in rows && a != b ==> rows[a].slug != rows[b].slug
  }

  datatype Call = Call(id: string, given: Fields, room: bool)

  function Apply(env: Environment, rows: Table, call: Call): Table {
    match Upserted(env, rows, call.id, call.given, call.room)
    case None => rows
    case Some(after) => after
  }

  function Run(env: Environment, rows: Table, calls: seq<Call>): Table
    decreases |calls|
  {
    if calls == [] then rows else Run(env, Apply(env, rows, calls[0]), calls[1..])
  }

  lemma NewSlugIsFree(env: Environment, rows: Table, id: string, name: Option<string>)
    requires UniqueSlugs(rows)
    ensures var slug := SlugFor(env, rows, id, name); slug != "" && slug !in OtherSlugs(rows, id)
  {
    hide Slugify, FirstFree;
    if !HasSlug(rows, id) {
      var series := Registration(Slugify(name, id, env.lower), env.lower(id));
      var slug := FirstFree(series, OtherSlugs(rows, id));
      CandidatesNonempty(series);
    }
  }

  lemma CandidatesNonempty(series: Series)
    requires series.Registration? && series.desired != ""
    ensures forall n: nat :: Candidate(series, n) != ""
  {
  }

  /** What one row keeps from one table to a later one. */
  ghost predicate RowKept(env: Environment, before: Table, after: Table, id: string) {
    id in before ==>
      && id in after
      && (before[id].slug != "" ==> after[id].slug == before[id].slug)
      && (Known(KNOWN_TYPES, before[id].entry.fields.kind) ==> after[id].entry.fields.kind == before[id].entry.fields.kind)
      && (Known(env.platforms, before[id].entry.fields.platform) ==>
            after[id].entry.fields.platform == before[id].entry.fields.platform)
  }

  lemma ApplyKeeps(env: Environment, rows: Table, call: Call)
    requires UniqueSlugs(rows)
    ensures var after := Apply(env, rows, call);
      && UniqueSlugs(after)
      && (forall id :: RowKept(env, rows, after, id))
      && (call.id in after ==> after[call.id].slug != "" && after[call.id].entry.slug == after[call.id].slug)
      && (forall id :: id != call.id ==> (id in after <==> id in rows))
  {
    hide SlugFor;
    if call.id in rows || call.room {
      NewSlugIsFree(env, rows, call.id, call.given.name);
      assert call.id in rows && rows[call.id].slug != "" ==> SlugFor(env, rows, call.id, call.given.name) == rows[call.id].slug by {
        SlugStays(env, rows, call.id, call.given.name);
      }
    }
  }

  lemma SlugStays(env: Environment, rows: Table, id: string, name: Option<string>)
    ensures HasSlug(rows, id) ==> SlugFor(env, rows, id, name) == rows[id].slug
  {
  }

  /** Over every sequence of calls: distinct channels keep distinct slugs, an allocated slug and a known type
      or platform never change, and every channel the calls registered or touched has a non-empty slug. */
  lemma {:induction false} RunKeeps(env: Environment, rows: Table, calls: seq<Call>)
    requires UniqueSlugs(rows)
    ensures var after := Run(env, rows, calls);
      && UniqueSlugs(after)
      && (forall id :: RowKept(env, rows, after, id))
      && (forall id :: id in after && (id !in rows || Touched(calls, id)) ==> after[id].slug != "")
    decreases |calls|
  {
    hide Apply, UniqueSlugs;
    if calls != [] {
      var middle := Apply(env, rows, calls[0]);
      ApplyKeeps(env, rows, calls[0]);
      RunKeeps(env, middle, calls[1..]);
      var after := Run(env, middle, calls[1..]);
      forall id ensures RowKept(env, rows, after, id) {
        assert RowKept(env, rows, middle, id) && RowKept(env, middle, after, id);
      }
      forall id | id in after && (id !in rows || Touched(calls, id)) ensures after[id].slug != "" {
        assert RowKept(env, middle, after, id);
        if id in middle && id != calls[0].id {
          TouchedLater(calls, id);
        }
      }
    }
  }

  // ---- What the calls leave in a row ----------------------------------------------------------------------------

  /** The types that calls named for a channel and that the gateway knows, in order. */
  function Kinds(calls: seq<Call>, id: string): seq<string> {
    if calls == [] then [] else
    (if calls[0].id == id && calls[0].given.kind in {Some("channel"), Some("group"), Some("mpim"), Some("im")}
     then [calls[0].given.kind.value] else []) + Kinds(calls[1..], id)
  }

  /** Likewise the platforms, among those that exist. */
  function Platforms(platforms: set<string>, calls: seq<Call>, id: string): seq<string> {
    if calls == [] then [] else
    (if calls[0].id == id && calls[0].given.platform.Some? && calls[0].given.platform.value in platforms
     then [calls[0].given.platform.value] else []) + Platforms(platforms, calls[1..], id)
  }

  /** Every name, and every word on being a direct message, that calls gave for a channel. */
  function GivenNames(calls: seq<Call>, id: string): seq<string> {
    if calls == [] then [] else
    (if calls[0].id == id && calls[0].given.name.Some? then [calls[0].given.name.value] else []) + GivenNames(calls[1..], id)
  }

  function GivenDMs(calls: seq<Call>, id: string): seq<bool> {
    if calls == [] then [] else
    (if calls[0].id == id && calls[0].given.isDM.Some? then [calls[0].given.isDM.value] else []) + GivenDMs(calls[1..], id)
  }

  function Last<T>(values: seq<T>, otherwise: Option<T>): Option<T> {
    if values == [] then otherwise else Some(values[|values| - 1])
  }

  predicate IsKind(kind: Option<string>) {
    kind in {Some("channel"), Some("group"), Some("mpim"), Some("im")}
  }

  /** One call writes its own row: a name or word given now wins, a known type or platform stays, and the first
      known one is taken up. */
  lemma CallWrites(env: Environment, rows: Table, call: Call)
    requires call.id in rows
    ensures call.id in Apply(env, rows, call)
    ensures var a, b := rows[call.id].entry.fields, Apply(env, rows, call)[call.id].entry.fields;
      && b.name == Some(if call.given.name.Some? then call.given.name.value else if a.name.Some? then a.name.value else call.id)
      && b.isDM == Some(if call.given.isDM.Some? then call.given.isDM.value else a.isDM.Some? && a.isDM.value)
      && b.kind == (if IsKind(a.kind) then a.kind else if IsKind(call.given.kind) then call.given.kind
                    else if a.kind.Some? then a.kind else if call.given.kind.Some? then call.given.kind else Some(""))
      && b.platform ==
           (if a.platform.Some? && a.platform.value in env.platforms then a.platform
            else if call.given.platform.Some? && call.given.platform.value in env.platforms then call.given.platform
            else if a.platform.Some? then a.platform else if call.given.platform.Some? then call.given.platform else Some(""))
    ensures forall id :: id != call.id && id in rows ==> id in Apply(env, rows, call) && Apply(env, rows, call)[id] == rows[id]
  {
    hide SlugFor;
  }

  /** A new channel starts with what its first call says. */
  lemma FirstCallWrites(env: Environment, rows: Table, call: Call)
    requires call.id !in rows && call.room
    ensures call.id in Apply(env, rows, call)
    ensures Apply(env, rows, call)[call.id].entry.fields
      == Fields(Some(if call.given.name.Some? then call.given.name.value else call.id),
                Some(if call.given.kind.Some? then call.given.kind.value else ""),
                Some(call.given.isDM.Some? && call.given.isDM.value),
                Some(if call.given.platform.Some? then call.given.platform.value else ""))
  {
    hide SlugFor;
  }

  lemma {:induction false} KindSettles(env: Environment, rows: Table, calls: seq<Call>, id: string)
    requires id in rows
    ensures id in Run(env, rows, calls)
    ensures var a, b := rows[id].entry.fields.kind, Run(env, rows, calls)[id].entry.fields.kind;
      if IsKind(a) then b == a
      else if Kinds(calls, id) != [] then b == Some(Kinds(calls, id)[0])
      else !IsKind(b) && (a.Some? ==> b == a)
    decreases |calls|
  {
    hide Apply;
    if calls != [] {
      NextRow(env, rows, calls[0], id);
      KindSettles(env, Apply(env, rows, calls[0]), calls[1..], id);
    }
  }

  lemma {:induction false} PlatformSettles(env: Environment, rows: Table, calls: seq<Call>, id: string)
    requires id in rows && "" !in env.platforms
    ensures id in Run(env, rows, calls)
    ensures var a, b := rows[id].entry.fields.platform, Run(env, rows, calls)[id].entry.fields.platform;
      if Known(env.platforms, a) then b == a
      else if Platforms(env.platforms, calls, id) != [] then b == Some(Platforms(env.platforms, calls, id)[0])
      else !Known(env.platforms, b) && (a.Some? ==> b == a)
    decreases |calls|
  {
    hide Apply;
    if calls != [] {
      NextRow(env, rows, calls[0], id);
      PlatformSettles(env, Apply(env, rows, calls[0]), calls[1..], id);
    }
  }

  lemma LastOf<T>(front: seq<T>, rest: seq<T>, otherwise: Option<T>)
    ensures Last(front + rest, otherwise) == Last(rest, Last(front, otherwise))
  {
    assert rest == [] ==> front + rest == front;
  }

  lemma {:induction false} LastNameWins(env: Environment, rows: Table, calls: seq<Call>, id: string)
    requires id in rows && (rows[id].entry.fields.name.Some? || GivenNames(calls, id) != [])
    ensures id in Run(env, rows, calls)
    ensures Run(env, rows, calls)[id].entry.fields.name == Last(GivenNames(calls, id), rows[id].entry.fields.name)
    decreases |calls|
  {
    hide Apply, Known, IsKind, Last;
    if calls != [] {
      var call, middle := calls[0], Apply(env, rows, calls[0]);
      NextRow(env, rows, call, id);
      var given := if call.id == id && call.given.name.Some? then [call.given.name.value] else [];
      LastOf(given, GivenNames(calls[1..], id), rows[id].entry.fields.name);
      LastOne(given, rows[id].entry.fields.name);
      LastOne(GivenNames(calls[1..], id), rows[id].entry.fields.name);
      LastOne(GivenNames(calls[1..], id), middle[id].entry.fields.name);
      LastNameWins(env, middle, calls[1..], id);
    } else {
      LastOne(GivenNames(calls, id), rows[id].entry.fields.name);
    }
  }

  lemma LastOne<T>(values: seq<T>, otherwise: Option<T>)
    ensures values == [] ==> Last(values, otherwise) == otherwise
    ensures |values| == 1 ==> Last(values, otherwise) == Some(values[0])
    ensures values != [] ==> Last(values, otherwise) == Last(values, None)
  {
  }

  lemma {:induction false} LastDMWins(env: Environment, rows: Table, calls: seq<Call>, id: string)
    requires id in rows && (rows[id].entry.fields.isDM.Some? || GivenDMs(calls, id) != [])
    ensures id in Run(env, rows, calls)
    ensures Run(env, rows, calls)[id].entry.fields.isDM == Last(GivenDMs(calls, id), rows[id].entry.fields.isDM)
    decreases |calls|
  {
    hide Apply, Known, IsKind, Last;
    if calls != [] {
      var call, middle := calls[0], Apply(env, rows, calls[0]);
      NextRow(env, rows, call, id);
      var given := if call.id == id && call.given.isDM.Some? then [call.given.isDM.value] else [];
      LastOf(given, GivenDMs(calls[1..], id), rows[id].entry.fields.isDM);
      LastOne(given, rows[id].entry.fields.isDM);
      LastOne(GivenDMs(calls[1..], id), rows[id].entry.fields.isDM);
      LastOne(GivenDMs(calls[1..], id), middle[id].entry.fields.isDM);
      LastDMWins(env, middle, calls[1..], id);
    } else {
      LastOne(GivenDMs(calls, id), rows[id].entry.fields.isDM);
    }
  }

  lemma NextRow(env: Environment, rows: Table, call: Call, id: string)
    requires id in rows
    ensures id in Apply(env, rows, call)
    ensures var a, b := rows[id].entry.fields, Apply(env, rows, call)[id].entry.fields;
      if id != call.id then b == a else
      && b.name == Some(if call.given.name.Some? then call.given.name.value else if a.name.Some? then a.name.value else call.id)
      && b.isDM == Some(if call.given.isDM.Some? then call.given.isDM.value else a.isDM.Some? && a.isDM.value)
      && b.kind == (if IsKind(a.kind) then a.kind else if IsKind(call.given.kind) then call.given.kind
                    else if a.kind.Some? then a.kind else if call.given.kind.Some? then call.given.kind else Some(""))
      && b.platform ==
           (if Known(env.platforms, a.platform) then a.platform
            else if Known(env.platforms, call.given.platform) then call.given.platform
            else if a.platform.Some? then a.platform else if call.given.platform.Some? then call.given.platform else Some(""))
  {
    hide Apply;
    if id == call.id {
      CallWrites(env, rows, call);
    } else {
      OtherRow(env, rows, call, id);
    }
  }

  /** Over every sequence of calls on a registered channel: a known type stays, and otherwise the first known one
      that any call gave is stored, never a later one; likewise the platform. The last name and the last word on
      being a direct message win. */
  lemma FirstKnownTypeWins(env: Environment, rows: Table, calls: seq<Call>, id: string)
    requires id in rows && "" !in env.platforms
    ensures id in Run(env, rows, calls)
    ensures var a, b := rows[id].entry.fields, Run(env, rows, calls)[id].entry.fields;
      && (if IsKind(a.kind) then b.kind == a.kind
          else if Kinds(calls, id) != [] then b.kind == Some(Kinds(calls, id)[0])
          else !IsKind(b.kind) && (a.kind.Some? ==> b.kind == a.kind))
      && (if Known(env.platforms, a.platform) then b.platform == a.platform
          else if Platforms(env.platforms, calls, id) != [] then b.platform == Some(Platforms(env.platforms, calls, id)[0])
          else !Known(env.platforms, b.platform) && (a.platform.Some? ==> b.platform == a.platform))
      && (a.name.Some? || GivenNames(calls, id) != [] ==> b.name == Last(GivenNames(calls, id), a.name))
      && (a.isDM.Some? || GivenDMs(calls, id) != [] ==> b.isDM == Last(GivenDMs(calls, id), a.isDM))
  {
    hide Run, IsKind, Known, Last;
    KindSettles(env, rows, calls, id);
    PlatformSettles(env, rows, calls, id);
    if rows[id].entry.fields.name.Some? || GivenNames(calls, id) != [] {
      LastNameWins(env, rows, calls, id);
    }
    if rows[id].entry.fields.isDM.Some? || GivenDMs(calls, id) != [] {
      LastDMWins(env, rows, calls, id);
    }
  }

  lemma OtherRow(env: Environment, rows: Table, call: Call, id: string)
    requires id in rows && id != call.id
    ensures id in Apply(env, rows, call) && Apply(env, rows, call)[id] == rows[id]
  {
    hide SlugFor;
  }

  ghost predicate Touched(calls: seq<Call>, id: string) {
    exists i :: 0 <= i < |calls| && calls[i].id == id
  }

  lemma TouchedLater(calls: seq<Call>, id: string)
    requires calls != [] && Touched(calls, id) && id != calls[0].id
    ensures Touched(calls[1..], id)
  {
    var i :| 0 <= i < |calls| && calls[i].id == id;
    assert calls[1..][i - 1].id == id;
  }
}

/** Whether allocated slugs stay safe path components. */
module SafeSlugs {
  import opened Basics
  import opened Slugs
  import opened ChannelIndex

  /** Which candidate a new channel gets, read off the table. */
  lemma NewSlugIsCandidate(env: Environment, rows: Table, id: string, name: Option<string>) returns (n: nat)
    requires !HasSlug(rows, id)
    ensures var series, others := Registration(Slugify(name, id, env.lower), env.lower(id)), OtherSlugs(rows, id);
      && SlugFor(env, rows, id, name) == Candidate(series, n)
      && (n == 0 <==> Candidate(series, 0) !in others)
      && (n == 1 <==> Candidate(series, 0) in others && Candidate(series, 1) !in others)
  {
    hide Slugify, FirstFree, Candidate;
    var series, others := Registration(Slugify(name, id, env.lower), env.lower(id)), OtherSlugs(rows, id);
    n :| SlugFor(env, rows, id, name) == Candidate(series, n) && AllTaken(series, others, n);
    if n > 0 {
      TakenAt(series, others, n, 0);
    }
    if n > 1 {
      TakenAt(series, others, n, 1);
    }
  }

  lemma TakenAt(series: Series, taken: set<string>, n: nat, m: nat)
    requires AllTaken(series, taken, n) && m < n
    ensures Candidate(series, m) in taken
  {
  }

  /** Before the call, from the table and the id: a new channel's slug is one safe path component exactly when its
      cleaned name is free, or else, when that name with the lower-cased id is free, the id can end a slug, or
      else, the id is safe text. */
  lemma NewSlugIsSafeExactly(env: Environment, rows: Table, id: string, name: Option<string>)
    requires !HasSlug(rows, id)
    ensures var desired, lowered, others := Slugify(name, id, env.lower), env.lower(id), OtherSlugs(rows, id);
      IsSlug(SlugFor(env, rows, id, name)) <==>
        desired !in others || (if desired + "-" + lowered !in others then EndsSlug(lowered) else AllSafe(lowered))
  {
    hide Slugify, IsSlug, AllSafe, EndsSlug, FirstFree, SlugFor;
    var n := NewSlugIsCandidate(env, rows, id, name);
    CandidateIsSlug(Slugify(name, id, env.lower), env.lower(id), n);
  }

  ghost predicate SafeRows(rows: Table) {
    forall id :: id in rows && rows[id].slug != "" ==> IsSlug(rows[id].slug)
  }

  lemma ApplySafe(env: Environment, rows: Table, call: Call)
    requires SafeRows(rows) && EndsSlug(env.lower(call.id))
    ensures SafeRows(Apply(env, rows, call))
  {
    hide IsSlug, SlugFor;
    if !HasSlug(rows, call.id) {
      NewSlugIsSafeExactly(env, rows, call.id, call.given.name);
      assert AllSafe(env.lower(call.id));
    } else {
      SlugStays(env, rows, call.id, call.given.name);
    }
  }

  /** Over every sequence of calls whose lower-cased channel ids are safe text, every slug stays one safe path
      component. */
  lemma {:induction false} RunSafe(env: Environment, rows: Table, calls: seq<Call>)
    requires SafeRows(rows) && forall i :: 0 <= i < |calls| ==> EndsSlug(env.lower(calls[i].id))
    ensures SafeRows(Run(env, rows, calls))
    decreases |calls|
  {
    hide SafeRows, Apply, EndsSlug;
    if calls != [] {
      ApplySafe(env, rows, calls[0]);
      RunSafe(env, Apply(env, rows, calls[0]), calls[1..]);
    }
  }

  lemma SecondFree(desired: string, id: string, taken: set<string>)
    requires taken == {desired}
    ensures FirstFree(Registration(desired, id), taken) == desired + "-" + id
  {
    hide FirstFree;
    var series := Registration(desired, id);
    CandidatesDiffer(series, 0, 1);
    assert Candidate(series, 1) == desired + "-" + id;
    assert AllTaken(series, taken, 1);
    FirstFreeUnique(series, taken, desired + "-" + id, FirstFree(series, taken));
  }

  lemma ColonFacts()
    ensures IsSlug("team") && !EndsSlug("t:1")
  {
    assert "t:1"[1] == ':';
  }

  lemma OneOther(rows: Table, row: Row, id: string)
    requires rows == map["a" := row] && id != "a"
    ensures OtherSlugs(rows, id) == {row.slug}
  {
    assert rows["a"].slug == row.slug;
  }

  /** A channel id with a colon, and a name that another channel already has: the new slug carries the colon. */
  lemma SuffixKeepsColon(env: Environment, rows: Table, row: Row)
    requires env.lower("t:1") == "t:1" && env.lower("team") == "team"
    requires rows == map["a" := row] && row.slug == "team"
    ensures SlugFor(env, rows, "t:1", Some("team")) == "team" + "-" + "t:1" && !IsSlug("team" + "-" + "t:1")
  {
    hide FirstFree, Slugify, IsSlug, EndsSlug, OtherSlugs;
    ColonFacts();
    TailedSlug("team", "t:1");
    SlugifyIsStable("team", "t:1", env.lower);
    OneOther(rows, row, "t:1");
    SecondFree("team", "t:1", {"team"});
  }
}

/** `upsertChannelEntry` on the channels table, with its probing loop. */
module ChannelStoreObject {
  import opened Basics
  import opened Slugs
  import opened ChannelIndex
  import Decimal

  class ChannelStore {
    const env: Environment
    var rows: Table

    constructor (env: Environment, rows: Table)
      ensures this.env == env && this.rows == rows
    {
      this.env, this.rows := env, rows;
    }

    /** The lookup by slug: another channel's row holds it. */
    method TakenByOther(candidate: string, channelId: string) returns (taken: bool)
      ensures taken == (candidate in OtherSlugs(rows, channelId))
    {
      var ids := rows.Keys;
      while ids != {}
        invariant ids <= rows.Keys
        invariant forall other :: other in rows && other !in ids && other != channelId ==> rows[other].slug != candidate
      {
        var id :| id in ids;
        if rows[id].slug == candidate && id != channelId {
          return true;
        }
        ids := ids - {id};
      }
      return false;
    }

    /** A refusal leaves the table as it was; otherwise exactly the channel's row is written. */
    method UpsertChannelEntry(channelId: string, given: Fields, room: bool) returns (r: Option<Entry>)
      modifies this
      ensures rows == Apply(env, old(rows), Call(channelId, given, room))
      ensures r.None? <==> channelId !in old(rows) && !room
      ensures r.Some? ==> channelId in rows && r.value == rows[channelId].entry
    {
      hide FirstFree, Slugify, Merged;
      if channelId !in rows && !room {
        return None;
      }
      var existing := Stored(rows, channelId);
      var slug := if channelId in rows && rows[channelId].slug != "" then rows[channelId].slug
                  else Slugify(given.name, channelId, env.lower);
      if channelId !in rows || rows[channelId].slug == "" {
        var desired := slug;
        var suffix := desired + "-" + env.lower(channelId);
        ghost var series := Registration(desired, env.lower(channelId));
        ghost var taken := OtherSlugs(rows, channelId);
        var n := 0;
        var busy := TakenByOther(slug, channelId);
        while busy
          invariant rows == old(rows)
          invariant slug == Candidate(series, n) && AllTaken(series, taken, n)
          invariant busy == (slug in taken)
          decreases |taken| + 1 - n
        {
          Pigeonhole(series, taken, n + 1);
          n := n + 1;
          slug := if n == 1 then suffix else suffix + "-" + Decimal.Print(n);
          busy := TakenByOther(slug, channelId);
        }
        FirstFreeUnique(series, taken, slug, FirstFree(series, taken));
      }
      var entry := Entry(slug, Merged(env, existing, given, channelId));
      rows := rows[channelId := Row(slug, entry)];
      return Some(entry);
    }
  }
}

/** The channel index of the one-time import: duplicates are renamed, never dropped. */
module LegacyImport {
  import opened Basics
  import opened Slugs
  import Decimal

  /** An entry of the legacy index; a missing slug is the empty one. */
  datatype Entry = Entry(channelId: string, slug: string)

  /** The slug column by channel; the table has a unique index on it. */
  type Table = map<string, string>

  function SlugsOf(table: Table): set<string> {
    table.Values
  }

  /** The empty slug is not probed. */
  function Repaired(table: Table, slug: string): string {
    if slug == "" then "" else FirstFree(Legacy(slug), SlugsOf(table))
  }

  /** `INSERT OR IGNORE`: a present channel or a present slug leaves the table as it is. */
  function Insert(table: Table, channelId: string, slug: string): Table {
    if channelId in table || slug in SlugsOf(table) then table else table[channelId := slug]
  }

  function ImportOne(table: Table, entry: Entry): Table {
    Insert(table, entry.channelId, Repaired(table, entry.slug))
  }

  function Import(table: Table, entries: seq<Entry>): Table {
    if entries == [] then table
    else ImportOne(Import(table, entries[..|entries| - 1]), entries[|entries| - 1])
  }

  lemma LegacyCandidate(base: string, n: nat)
    ensures Candidate(Legacy(base), n) == if n == 0 then base else base + "-" + Decimal.Print(n + 1)
  {
  }

  lemma NoEntries(start: Table)
    ensures Import(start, []) == start
  {
  }

  lemma ImportNext(start: Table, entries: seq<Entry>, i: nat)
    requires i < |entries|
    ensures Import(start, entries[..i + 1]) ==
            Insert(Import(start, entries[..i]), entries[i].channelId, Repaired(Import(start, entries[..i]), entries[i].slug))
  {
    hide Insert, Repaired;
    assert entries[..i + 1][..i] == entries[..i];
  }

  /** The import's loop over the index, with its probing loop. */
  method ImportChannels(start: Table, entries: seq<Entry>) returns (table: Table)
    ensures table == Import(start, entries)
  {
    hide FirstFree, Candidate, Insert, Import;
    table := start;
    NoEntries(start);
    for i := 0 to |entries|
      invariant table == Import(start, entries[..i])
    {
      var entry := entries[i];
      var slug := entry.slug;
      var n := 2;
      ghost var series := Legacy(entry.slug);
      LegacyCandidate(entry.slug, 0);
      ImportNext(start, entries, i);
      while slug != "" && slug in SlugsOf(table)
        invariant n >= 2 && slug == (if entry.slug == "" then "" else Candidate(series, n - 2))
        invariant entry.slug != "" ==> slug != "" && AllTaken(series, SlugsOf(table), n - 2)
        decreases |SlugsOf(table)| + 2 - n
      {
        Pigeonhole(series, SlugsOf(table), n - 1);
        LegacyCandidate(entry.slug, n - 1);
        slug := entry.slug + "-" + Decimal.Print(n);
        n := n + 1;
      }
      if entry.slug != "" {
        FirstFreeUnique(series, SlugsOf(table), slug, FirstFree(series, SlugsOf(table)));
      }
      table := Insert(table, entry.channelId, slug);
    }
    assert entries[..|entries|] == entries;
  }

  ghost predicate UniqueSlugs(table: Table) {
    forall a, b :: a in table && b in table && a != b ==> table[a] != table[b]
  }

  ghost predicate DistinctChannels(entries: seq<Entry>) {
    forall i, j :: 0 <= i < j < |entries| ==> entries[i].channelId != entries[j].channelId
  }

  lemma FrontDistinct(entries: seq<Entry>)
    requires DistinctChannels(entries) && entries != []
    ensures DistinctChannels(entries[..|entries| - 1])
    ensures forall i :: 0 <= i < |entries| - 1 ==> entries[i].channelId != entries[|entries| - 1].channelId
  {
  }

  /** An entry is dropped exactly when its channel is already there, or it has no slug and a channel
      without one is already there. */
  lemma OneImported(table: Table, entry: Entry)
    requires UniqueSlugs(table)
    ensures var after := ImportOne(table, entry);
      && UniqueSlugs(after)
      && (forall id :: id in table ==> id in after && after[id] == table[id])
      && (forall id :: id in after ==> id in table || id == entry.channelId)
      && (entry.channelId in table || (entry.slug == "" && "" in SlugsOf(table)) <==> after == table)
      && (after != table ==>
            if entry.slug !in SlugsOf(table) then after[entry.channelId] == entry.slug
            else IsFirstFree(Legacy(entry.slug), SlugsOf(table), after[entry.channelId]))
  {
    var slug := Repaired(table, entry.slug);
    if entry.slug != "" {
      assert slug !in SlugsOf(table);
    }
    if entry.channelId !in table && slug !in SlugsOf(table) {
      forall id | id in table ensures table[id] != slug {
        assert table[id] in SlugsOf(table);
      }
      assert entry.channelId in ImportOne(table, entry);
    }
  }

  ghost predicate SlugBefore(table: Table, entries: seq<Entry>, i: nat, slug: string)
    requires i <= |entries|
  {
    slug in SlugsOf(Import(table, entries[..i]))
  }

  /** The import keeps the slugs pairwise distinct and the rows that were there. A new channel of the index is
      dropped exactly when its slug is empty and an empty slug came before it; it keeps its own slug exactly
      when no earlier row holds it, and otherwise takes the first free `slug-n`. */
  lemma {:induction false} ImportIsFaithful(table: Table, entries: seq<Entry>, i: nat)
    requires UniqueSlugs(table) && DistinctChannels(entries) && i < |entries| && entries[i].channelId !in table
    ensures var after := Import(table, entries); var entry := entries[i];
      && UniqueSlugs(after)
      && (entry.channelId !in after <==> entry.slug == "" && SlugBefore(table, entries, i, ""))
      && (entry.channelId in after ==>
            && (after[entry.channelId] == entry.slug <==> !SlugBefore(table, entries, i, entry.slug))
            && (SlugBefore(table, entries, i, entry.slug) ==>
                  IsFirstFree(Legacy(entry.slug), SlugsOf(Import(table, entries[..i])), after[entry.channelId])))
  {
    hide FirstFree, IsFirstFree;
    var front, last := entries[..|entries| - 1], entries[|entries| - 1];
    FrontDistinct(entries);
    ImportKeeps(table, front);
    OneImported(Import(table, front), last);
    var entry := entries[i];
    if i < |front| {
      assert front[..i] == entries[..i] && front[i] == entries[i];
      ImportIsFaithful(table, front, i);
    } else {
      assert entries[..i] == front;
      assert entry.channelId !in Import(table, front);
      hide ImportOne;
      FirstFreeIsFree(table, front, entry);
    }
  }

  lemma FirstFreeIsFree(table: Table, front: seq<Entry>, entry: Entry)
    ensures forall slug :: IsFirstFree(Legacy(entry.slug), SlugsOf(Import(table, front)), slug) ==>
      slug !in SlugsOf(Import(table, front))
  {
  }

  lemma {:induction false} ImportKeeps(table: Table, entries: seq<Entry>)
    requires UniqueSlugs(table)
    ensures var after := Import(table, entries);
      && UniqueSlugs(after)
      && (forall id :: id in table ==> id in after && after[id] == table[id])
      && (forall id :: id in after ==> id in table || exists k :: 0 <= k < |entries| && entries[k].channelId == id)
  {
    hide ImportOne;
    if entries != [] {
      var front, last := entries[..|entries| - 1], entries[|entries| - 1];
      ImportKeeps(table, front);
      OneImported(Import(table, front), last);
      forall id | id in Import(table, entries) && id !in table ensures exists k :: 0 <= k < |entries| && entries[k].channelId == id {
        if id != last.channelId {
          var k :| 0 <= k < |front| && front[k].channelId == id;
          assert entries[k].channelId == id;
        }
      }
    }
  }

  function Numbered(base: string, n: nat): string {
    base + "-" + Decimal.Print(n)
  }

  /** A new channel before the `i`th has a slug that, numbered, is this one. */
  ghost predicate CouldBeTaken(table: Table, entries: seq<Entry>, i: nat, slug: string)
    requires i <= |entries|
  {
    exists k, n: nat :: 0 <= k < i && n >= 2 && entries[k].channelId !in table && slug == Numbered(entries[k].slug, n)
  }

  /** A new channel before the `i`th has this slug. */
  ghost predicate HeldBefore(table: Table, entries: seq<Entry>, i: nat, slug: string)
    requires i <= |entries|
  {
    exists k :: 0 <= k < i && entries[k].channelId !in table && entries[k].slug == slug
  }

  /** Where the slugs after an import come from. */
  ghost predicate Explained(table: Table, entries: seq<Entry>, slug: string) {
    slug in SlugsOf(table) || HeldBefore(table, entries, |entries|, slug) || CouldBeTaken(table, entries, |entries|, slug)
  }

  lemma OnPrefix(table: Table, entries: seq<Entry>, i: nat, slug: string)
    requires i <= |entries|
    ensures CouldBeTaken(table, entries[..i], i, slug) <==> CouldBeTaken(table, entries, i, slug)
    ensures HeldBefore(table, entries[..i], i, slug) <==> HeldBefore(table, entries, i, slug)
  {
    hide Numbered;
    assert forall k :: 0 <= k < i ==> entries[..i][k] == entries[k];
  }

  lemma RepairedIsNumbered(table: Table, slug: string)
    ensures Repaired(table, slug) == slug || exists n: nat :: n >= 2 && Repaired(table, slug) == Numbered(slug, n)
  {
    if slug != "" {
      var n: nat :| Repaired(table, slug) == Candidate(Legacy(slug), n) && AllTaken(Legacy(slug), SlugsOf(table), n);
      if n > 0 {
        assert Repaired(table, slug) == Numbered(slug, n + 1);
      }
    }
  }

  lemma ExplainedLonger(table: Table, front: seq<Entry>, last: Entry, slug: string)
    requires Explained(table, front, slug) ||
             (last.channelId !in table && (slug == last.slug || exists n: nat :: n >= 2 && slug == Numbered(last.slug, n)))
    ensures Explained(table, front + [last], slug)
  {
    hide Numbered;
    var longer := front + [last];
    assert longer[|front|] == last && forall k :: 0 <= k < |front| ==> longer[k] == front[k];
  }

  lemma {:induction false} SlugsExplained(table: Table, entries: seq<Entry>, slug: string)
    requires UniqueSlugs(table) && slug in SlugsOf(Import(table, entries))
    ensures Explained(table, entries, slug)
  {
    hide Explained, Repaired, Numbered, UniqueSlugs;
    if entries == [] {
      ExplainedStart(table, slug);
    } else {
      var front, last := entries[..|entries| - 1], entries[|entries| - 1];
      assert entries == front + [last];
      ImportKeeps(table, front);
      RepairedIsNumbered(Import(table, front), last.slug);
      if slug in SlugsOf(Import(table, front)) {
        SlugsExplained(table, front, slug);
      }
      ExplainedLonger(table, front, last, slug);
    }
  }

  lemma ExplainedStart(table: Table, slug: string)
    requires slug in SlugsOf(table)
    ensures Explained(table, [], slug)
  {
  }

  lemma SlugsStay(table: Table, after: Table, slug: string)
    requires forall id :: id in table ==> id in after && after[id] == table[id]
    requires slug in SlugsOf(table)
    ensures slug in SlugsOf(after)
  {
    var id :| id in table && table[id] == slug;
    assert after[id] == slug;
  }

  /** Once a new channel with this slug was imported, some row has it. */
  lemma {:induction false} SlugHeld(table: Table, entries: seq<Entry>, k: nat)
    requires UniqueSlugs(table) && DistinctChannels(entries) && k < |entries| && entries[k].channelId !in table
    ensures entries[k].slug in SlugsOf(Import(table, entries))
  {
    hide ImportOne;
    var front, last := entries[..|entries| - 1], entries[|entries| - 1];
    FrontDistinct(entries);
    ImportKeeps(table, front);
    OneImported(Import(table, front), last);
    if k < |front| {
      assert front[k] == entries[k];
      SlugHeld(table, front, k);
      SlugsStay(Import(table, front), Import(table, entries), entries[k].slug);
    } else if last.slug in SlugsOf(Import(table, front)) {
      SlugsStay(Import(table, front), Import(table, entries), last.slug);
    } else {
      assert Import(table, entries)[last.channelId] == last.slug;
    }
  }

  /** Read off table and index before the import: as long as no earlier new channel's slug, numbered, is this
      entry's slug, a new channel is imported with its own slug exactly when no row of the table and no earlier
      new channel has it. So the first entry keeps its slug on every such index. */
  lemma FirstHolderKeeps(table: Table, entries: seq<Entry>, i: nat)
    requires UniqueSlugs(table) && DistinctChannels(entries) && i < |entries| && entries[i].channelId !in table
    requires !CouldBeTaken(table, entries, i, entries[i].slug)
    ensures var after := Import(table, entries); var entry := entries[i];
      entry.channelId in after && after[entry.channelId] == entry.slug <==>
        entry.slug !in SlugsOf(table) && !HeldBefore(table, entries, i, entry.slug)
  {
    hide Import, Numbered, CouldBeTaken;
    ImportIsFaithful(table, entries, i);
    var entry, before := entries[i], entries[..i];
    ImportKeeps(table, before);
    assert DistinctChannels(before);
    OnPrefix(table, entries, i, entry.slug);
    if entry.slug in SlugsOf(Import(table, before)) {
      SlugsExplained(table, before, entry.slug);
    }
    if entry.slug in SlugsOf(table) {
      SlugsStay(table, Import(table, before), entry.slug);
    }
    if k :| 0 <= k < i && entries[k].channelId !in table && entries[k].slug == entry.slug {
      assert before[k] == entries[k];
      SlugHeld(table, before, k);
    }
  }

  ghost predicate AllKept(after: Table, entries: seq<Entry>) {
    forall i :: 0 <= i < |entries| ==> entries[i].channelId in after && after[entries[i].channelId] == entries[i].slug
  }

  ghost predicate DistinctSlugs(entries: seq<Entry>) {
    forall i, j :: 0 <= i < j < |entries| ==> entries[i].slug != entries[j].slug
  }

  ghost predicate AllNew(table: Table, entries: seq<Entry>) {
    forall i :: 0 <= i < |entries| ==> entries[i].channelId !in table
  }

  ghost predicate NoneHeld(table: Table, entries: seq<Entry>) {
    forall i :: 0 <= i < |entries| ==> entries[i].slug !in SlugsOf(table)
  }

  lemma KeptIsFree(table: Table, after: Table, id: string)
    requires UniqueSlugs(after) && id in after && id !in table
    requires forall other :: other in table ==> other in after && after[other] == table[other]
    ensures after[id] !in SlugsOf(table)
  {
    forall other | other in table ensures table[other] != after[id] {
      assert after[other] == table[other];
    }
  }

  /** For a whole index of new channels: every channel is imported, and with its own slug, exactly when the slugs
      of the index are pairwise distinct and none is in the table. */
  lemma AllKeptExactly(table: Table, entries: seq<Entry>)
    requires UniqueSlugs(table) && DistinctChannels(entries) && AllNew(table, entries)
    ensures AllKept(Import(table, entries), entries) <==> DistinctSlugs(entries) && NoneHeld(table, entries)
  {
    hide Import;
    var after := Import(table, entries);
    ImportKeeps(table, entries);
    if AllKept(after, entries) {
      forall i | 0 <= i < |entries| ensures entries[i].slug !in SlugsOf(table) {
        KeptIsFree(table, after, entries[i].channelId);
      }
    }
    if DistinctSlugs(entries) && NoneHeld(table, entries) {
      DistinctImport(table, entries);
    }
  }

  function IndexSlugs(entries: seq<Entry>): set<string> {
    set i | 0 <= i < |entries| :: entries[i].slug
  }

  lemma IndexGrows(front: seq<Entry>, last: Entry)
    requires DistinctSlugs(front + [last])
    ensures DistinctSlugs(front) && last.slug !in IndexSlugs(front)
    ensures IndexSlugs(front + [last]) == IndexSlugs(front) + {last.slug}
  {
    var longer := front + [last];
    assert longer[|front|] == last && forall k :: 0 <= k < |front| ==> longer[k] == front[k];
    assert DistinctSlugs(front) by {
      forall i, j | 0 <= i < j < |front| ensures front[i].slug != front[j].slug {
        assert longer[i].slug != longer[j].slug;
      }
    }
    forall slug ensures slug in IndexSlugs(longer) <==> slug in IndexSlugs(front) || slug == last.slug {
      if slug in IndexSlugs(front) {
        var i :| 0 <= i < |front| && front[i].slug == slug;
        assert longer[i].slug == slug;
      }
    }
  }

  lemma KeptGrows(before: Table, front: seq<Entry>, last: Entry)
    requires AllKept(before, front) && last.channelId !in before
    ensures AllKept(before[last.channelId := last.slug], front + [last])
  {
  }

  lemma {:induction false} DistinctImport(table: Table, entries: seq<Entry>)
    requires UniqueSlugs(table) && DistinctChannels(entries) && DistinctSlugs(entries)
    requires AllNew(table, entries) && NoneHeld(table, entries)
    ensures AllKept(Import(table, entries), entries)
    ensures SlugsOf(Import(table, entries)) == SlugsOf(table) + IndexSlugs(entries)
  {
    hide ImportOne, AllKept, DistinctSlugs, IndexSlugs, SlugsOf, UniqueSlugs;
    if entries == [] {
      NothingImported(table);
    } else {
      var front, last := entries[..|entries| - 1], entries[|entries| - 1];
      assert entries == front + [last];
      FrontDistinct(entries);
      IndexGrows(front, last);
      DistinctImport(table, front);
      ImportKeeps(table, front);
      OneMore(Import(table, front), last);
      KeptGrows(Import(table, front), front, last);
    }
  }

  lemma NothingImported(table: Table)
    ensures AllKept(table, []) && IndexSlugs([]) == {}
  {
  }

  /** An entry whose channel and slug are new brings exactly its slug. */
  lemma OneMore(table: Table, entry: Entry)
    requires entry.channelId !in table && entry.slug !in SlugsOf(table)
    ensures ImportOne(table, entry) == table[entry.channelId := entry.slug]
    ensures SlugsOf(ImportOne(table, entry)) == SlugsOf(table) + {entry.slug}
  {
    hide FirstFree;
    if entry.slug != "" {
      assert Candidate(Legacy(entry.slug), 0) == entry.slug;
      assert AllTaken(Legacy(entry.slug), SlugsOf(table), 0);
      FirstFreeUnique(Legacy(entry.slug), SlugsOf(table), entry.slug, FirstFree(Legacy(entry.slug), SlugsOf(table)));
    }
    var after := table[entry.channelId := entry.slug];
    forall slug ensures slug in SlugsOf(after) <==> slug in SlugsOf(table) || slug == entry.slug {
      if slug in SlugsOf(table) {
        var id :| id in table && table[id] == slug;
        assert after[id] == slug;
      }
      assert after[entry.channelId] == entry.slug;
    }
  }

  lemma SecondIsFree(base: string, taken: set<string>)
    requires base in taken && base + "-2" !in taken
    ensures FirstFree(Legacy(base), taken) == base + "-2"
  {
    assert Candidate(Legacy(base), 0) == base;
    assert Candidate(Legacy(base), 1) == base + "-" + Decimal.Print(2) == base + "-2";
    assert AllTaken(Legacy(base), taken, 1);
    FirstFreeUnique(Legacy(base), taken, base + "-2", FirstFree(Legacy(base), taken));
  }

  lemma ImportSnoc(table: Table, entries: seq<Entry>, entry: Entry)
    ensures Import(table, entries + [entry]) == ImportOne(Import(table, entries), entry)
  {
    assert (entries + [entry])[..|entries|] == entries;
  }

  /** The first entry with a slug does not always keep it: a renamed earlier duplicate can have taken it. */
  lemma RenameTakesLaterSlug()
    ensures Import(map[], [Entry("C1", "a"), Entry("C2", "a"), Entry("C3", "a-2")]) ==
            map["C1" := "a", "C2" := "a-2", "C3" := "a-2-2"]
  {
    hide FirstFree, Import;
    var one, two := map["C1" := "a"], map["C1" := "a", "C2" := "a-2"];
    assert Import(map[], []) == map[] by {
      EmptyImport();
    }
    ImportSnoc(map[], [], Entry("C1", "a"));
    assert Candidate(Legacy("a"), 0) == "a";
    FirstFreeUnique(Legacy("a"), {}, "a", FirstFree(Legacy("a"), {}));
    assert [] + [Entry("C1", "a")] == [Entry("C1", "a")];
    assert Import(map[], [Entry("C1", "a")]) == one;
    ImportSnoc(map[], [Entry("C1", "a")], Entry("C2", "a"));
    assert one["C1"] == "a" && SlugsOf(one) == {"a"};
    SecondIsFree("a", SlugsOf(one));
    assert "a" + "-2" == "a-2" && "a-2" + "-2" == "a-2-2";
    assert [Entry("C1", "a")] + [Entry("C2", "a")] == [Entry("C1", "a"), Entry("C2", "a")];
    assert one["C2" := "a-2"] == two;
    assert Import(map[], [Entry("C1", "a"), Entry("C2", "a")]) == two;
    ImportSnoc(map[], [Entry("C1", "a"), Entry("C2", "a")], Entry("C3", "a-2"));
    assert two["C1"] == "a" && two["C2"] == "a-2" && SlugsOf(two) == {"a", "a-2"};
    SecondIsFree("a-2", SlugsOf(two));
    assert [Entry("C1", "a"), Entry("C2", "a")] + [Entry("C3", "a-2")] == [Entry("C1", "a"), Entry("C2", "a"), Entry("C3", "a-2")];
    assert two["C3" := "a-2-2"] == map["C1" := "a", "C2" := "a-2", "C3" := "a-2-2"];
  }

  lemma ThirdIsFree(base: string, taken: set<string>)
    requires base in taken && base + "-2" in taken && base + "-3" !in taken
    ensures FirstFree(Legacy(base), taken) == base + "-3"
  {
    hide FirstFree;
    assert Candidate(Legacy(base), 1) == base + "-" + Decimal.Print(2) == base + "-2";
    assert Candidate(Legacy(base), 2) == base + "-" + Decimal.Print(3) == base + "-3";
    assert AllTaken(Legacy(base), taken, 2);
    FirstFreeUnique(Legacy(base), taken, base + "-3", FirstFree(Legacy(base), taken));
  }

  /** Beyond `FirstHolderKeeps` the order of the earlier entries decides: the same three entries in two orders
      leave `a-3` free or take it, so no condition on which slugs came before can say it. */
  lemma OrderDecides()
    ensures var one, two, three := Entry("C1", "a"), Entry("C2", "a"), Entry("C3", "a-2");
      && "a-3" !in SlugsOf(Import(map[], [one, two, three]))
      && "a-3" in SlugsOf(Import(map[], [one, three, two]))
  {
    hide FirstFree, Import, Insert;
    RenameTakesLaterSlug();
    assert SlugsOf(map["C1" := "a", "C2" := "a-2", "C3" := "a-2-2"]) == {"a", "a-2", "a-2-2"} by {
      var first := map["C1" := "a", "C2" := "a-2", "C3" := "a-2-2"];
      assert first["C1"] == "a" && first["C2"] == "a-2" && first["C3"] == "a-2-2";
    }
    var base, two := map["C1" := "a"], map["C1" := "a", "C3" := "a-2"];
    EmptyImport();
    ImportSnoc(map[], [], Entry("C1", "a"));
    OneMore(map[], Entry("C1", "a"));
    assert [] + [Entry("C1", "a")] == [Entry("C1", "a")];
    assert map[]["C1" := "a"] == base;
    ImportSnoc(map[], [Entry("C1", "a")], Entry("C3", "a-2"));
    assert base["C1"] == "a" && SlugsOf(base) == {"a"};
    OneMore(base, Entry("C3", "a-2"));
    assert [Entry("C1", "a")] + [Entry("C3", "a-2")] == [Entry("C1", "a"), Entry("C3", "a-2")];
    assert base["C3" := "a-2"] == two;
    ImportSnoc(map[], [Entry("C1", "a"), Entry("C3", "a-2")], Entry("C2", "a"));
    assert two["C1"] == "a" && two["C3"] == "a-2" && SlugsOf(two) == {"a", "a-2"};
    assert "a" + "-2" == "a-2" && "a" + "-3" == "a-3";
    ThirdIsFree("a", SlugsOf(two));
    assert [Entry("C1", "a"), Entry("C3", "a-2")] + [Entry("C2", "a")] == [Entry("C1", "a"), Entry("C3", "a-2"), Entry("C2", "a")];
    InsertNew(two, "C2", "a-3");
  }

  lemma InsertNew(table: Table, channelId: string, slug: string)
    requires channelId !in table && slug !in SlugsOf(table)
    ensures slug in SlugsOf(Insert(table, channelId, slug))
  {
    assert Insert(table, channelId, slug)[channelId] == slug;
  }

  lemma EmptyImport()
    ensures Import(map[], []) == map[]
  {
  }
}
