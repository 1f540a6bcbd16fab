/** Settings saves: a merge under a lock, a version that every save moves on, and pages that send only
    what they changed. */
module Settings {
  import opened Basics
  import J = JsonText
  import opened JsText
  import Decimal
  import R = Regexes

  type Record = map<string, J.Json>

  /** `None` stands for `undefined`. */
  type Patch = map<string, Option<J.Json>>

  function Field(record: Record, name: string): Option<J.Json> {
    if name in record then Some(record[name]) else None
  }

  // ---- The public URL ---------------------------------------------------------------------------------

  function StripSlashes(s: string): (r: string)
    ensures r == "" || r[|r| - 1] != '/'
  {
    if s != "" && s[|s| - 1] == '/' then StripSlashes(s[..|s| - 1]) else s
  }

  predicate SchemeChar(c: char) {
    'a' <= c <= 'z' || 'A' <= c <= 'Z' || Decimal.IsDigit(c) || c == '+' || c == '.' || c == '-'
  }

  /** `^[A-Za-z][A-Za-z\d+.-]*://` */
  predicate HasScheme(s: string) {
    s != "" && ('a' <= s[0] <= 'z' || 'A' <= s[0] <= 'Z') && exists n :: 1 <= n < |s| && SchemeEndsAt(s, n)
  }

  predicate SchemeEndsAt(s: string, n: nat) {
    n + 3 <= |s| && s[n..n + 3] == "://" && forall i :: 0 <= i < n ==> SchemeChar(s[i])
  }

  /** `String(value || "")`; a stored or submitted URL is a string. */
  function UrlText(value: J.Json): string {
    if value.Str? then value.s else ""
  }

  /** What the operator typed, without surrounding blanks and then without trailing slashes. */
  function Bare(value: J.Json): string {
    StripSlashes(Trim(UrlText(value)))
  }

  /** A given scheme is kept, a missing one becomes `https://`, and nothing stays nothing. */
  function NormalizePublicUrl(value: J.Json): (r: string)
    ensures r == "" || (HasScheme(r) && r[|r| - 1] != '/')
    ensures r == "" <==> Bare(value) == ""
    ensures HasScheme(Bare(value)) ==> r == Bare(value)
    ensures Bare(value) != "" && !HasScheme(Bare(value)) ==> r == "https://" + Bare(value)
  {
    var trimmed := Bare(value);
    if trimmed == "" then ""
    else if HasScheme(trimmed) then trimmed
    else
      var r := "https://" + trimmed;
      assert SchemeEndsAt(r, 5);
      r
  }

  lemma {:induction false} StripSlashesExactly(core: string, slashes: string)
    requires (forall i :: 0 <= i < |slashes| ==> slashes[i] == '/') && (core != "" ==> core[|core| - 1] != '/')
    ensures StripSlashes(core + slashes) == core
  {
    if slashes == "" {
      assert core + slashes == core;
    } else {
      assert (core + slashes)[..|core + slashes| - 1] == core + slashes[..|slashes| - 1];
      StripSlashesExactly(core, slashes[..|slashes| - 1]);
    }
  }

  /** What is left of a typed URL: blanks at both ends and then the trailing slashes are gone, nothing else. */
  lemma BareExactly(left: string, core: string, slashes: string, right: string)
    requires AllSpaces(left) && AllSpaces(right) && forall i :: 0 <= i < |slashes| ==> slashes[i] == '/'
    requires core != "" ==> core[0] as int !in SPACES && core[|core| - 1] != '/'
    requires core != "" && slashes == "" ==> core[|core| - 1] as int !in SPACES
    ensures Bare(J.Str(left + core + slashes + right)) == core
  {
    hide SPACES;
    var inner := core + slashes;
    assert left + core + slashes + right == left + inner + right;
    assert inner != "" ==> inner[0] == (if core != "" then core[0] else '/');
    SlashIsNoSpace();
    TrimExactly(left, inner, right);
    StripSlashesExactly(core, slashes);
  }

  lemma SlashIsNoSpace()
    ensures '/' as int !in SPACES
  {
  }

  const LETTERS := [R.Range('A', 'Z'), R.Range('a', 'z')]
  const SCHEME_CHARS := [R.Range('A', 'Z'), R.Range('a', 'z'), R.Range('0', '9'), R.Range('+', '+'), R.Range('.', '.'), R.Range('-', '-')]
  const SCHEME := R.Then(R.Chars(LETTERS, false), R.Then(R.Times(R.Chars(SCHEME_CHARS, false), 0, None), R.Text("://")))

  lemma SchemeClasses(c: char)
    ensures R.InClass(c, LETTERS) <==> 'a' <= c <= 'z' || 'A' <= c <= 'Z'
    ensures R.InClass(c, SCHEME_CHARS) <==> SchemeChar(c)
  {
    var i := if 'A' <= c <= 'Z' then 0 else if 'a' <= c <= 'z' then 1 else if '0' <= c <= '9' then 2
             else if c == '+' then 3 else if c == '.' then 4 else 5;
    if SchemeChar(c) {
      assert R.InRange(c, SCHEME_CHARS[i]);
    }
    if 'a' <= c <= 'z' || 'A' <= c <= 'Z' {
      assert R.InRange(c, LETTERS[i]);
    }
  }

  lemma SchemeAt(s: string, n: nat)
    requires 1 <= n && n + 3 <= |s| && ('a' <= s[0] <= 'z' || 'A' <= s[0] <= 'Z')
    ensures R.Matches(SCHEME, s[..n + 3]) <==> SchemeEndsAt(s, n)
  {
    hide R.InClass, SchemeChar, R.Matches, R.Repeats;
    var t := s[..n + 3];
    var middle := t[1..n];
    forall c: char ensures R.InClass(c, SCHEME_CHARS) <==> SchemeChar(c) {
      SchemeClasses(c);
    }
    MatchesScheme(t);
    assert t[n..] == s[n..n + 3];
    LetterIsSchemeChar(s[0]);
    assert R.AllInClass(middle, SCHEME_CHARS) <==> forall i :: 0 <= i < n ==> SchemeChar(s[i]) by {
      assert forall i :: 0 < i < n ==> s[i] == middle[i - 1];
      assert forall i :: 0 <= i < |middle| ==> middle[i] == s[i + 1];
    }
  }

  lemma LetterIsSchemeChar(c: char)
    requires 'a' <= c <= 'z' || 'A' <= c <= 'Z'
    ensures SchemeChar(c)
  {
  }

  lemma MatchesScheme(t: string)
    requires |t| >= 4 && ('a' <= t[0] <= 'z' || 'A' <= t[0] <= 'Z')
    ensures R.Matches(SCHEME, t) <==> t[|t| - 3..] == "://" && R.AllInClass(t[1..|t| - 3], SCHEME_CHARS)
  {
    hide R.InClass, R.Matches, R.Repeats, R.AllInClass;
    var rest, middle := R.Then(R.Times(R.Chars(SCHEME_CHARS, false), 0, None), R.Text("://")), t[1..|t| - 3];
    SchemeClasses(t[0]);
    R.ThenClass(LETTERS, rest, t);
    R.ThenEnds(R.Times(R.Chars(SCHEME_CHARS, false), 0, None), "://", t[1..]);
    assert t[1..][..|t[1..]| - 3] == middle && t[1..][|t[1..]| - 3..] == t[|t| - 3..];
    R.RepeatedClass(SCHEME_CHARS, 0, None, middle);
    R.TimesIs(R.Chars(SCHEME_CHARS, false), 0, None, middle);
  }

  /** A text has a scheme exactly when a beginning of it matches the pattern. */
  lemma SchemeMeans(s: string)
    ensures HasScheme(s) <==> exists k :: 0 <= k <= |s| && R.Matches(SCHEME, s[..k])
  {
    hide R.Matches, R.Repeats, SchemeEndsAt;
    if HasScheme(s) {
      var n :| 1 <= n < |s| && SchemeEndsAt(s, n);
      SchemeFits(s, n);
      SchemeAt(s, n);
    }
    if k :| 0 <= k <= |s| && R.Matches(SCHEME, s[..k]) {
      SchemeIsLong(s[..k]);
      SchemeAt(s, k - 3);
    }
  }

  lemma SchemeFits(s: string, n: nat)
    requires SchemeEndsAt(s, n)
    ensures n + 3 <= |s|
  {
  }

  lemma SchemeIsLong(t: string)
    requires R.Matches(SCHEME, t)
    ensures |t| >= 4 && ('a' <= t[0] <= 'z' || 'A' <= t[0] <= 'Z')
  {
    var rest := R.Then(R.Times(R.Chars(SCHEME_CHARS, false), 0, None), R.Text("://"));
    var k := R.ThenSplit(R.Chars(LETTERS, false), rest, t);
    var j := R.ThenSplit(R.Times(R.Chars(SCHEME_CHARS, false), 0, None), R.Text("://"), t[k..]);
    SchemeClasses(t[0]);
  }

  lemma {:induction false} TrimRightShortens(s: string)
    ensures TrimRight(s) <= s
    ensures s != "" && IsSpace(s[|s| - 1]) ==> |TrimRight(s)| < |s|
  {
    if s != "" && IsSpace(s[|s| - 1]) {
      TrimRightShortens(s[..|s| - 1]);
    }
  }

  lemma {:induction false} StripSlashesShortens(s: string)
    ensures StripSlashes(s) <= s
  {
    if s != "" && s[|s| - 1] == '/' {
      StripSlashesShortens(s[..|s| - 1]);
    }
  }

  lemma SchemeStart(s: string)
    requires HasScheme(s)
    ensures s != "" && !IsSpace(s[0])
  {
  }

  lemma SecondPass(r: string)
    requires HasScheme(r) && r[|r| - 1] != '/'
    ensures Bare(J.Str(r)) <= r
    ensures Bare(J.Str(r)) == r <==> !IsSpace(r[|r| - 1])
  {
    SchemeStart(r);
    assert TrimLeft(r) == r;
    TrimRightShortens(r);
    StripSlashesShortens(TrimRight(r));
  }

  /** Normalising again changes nothing, exactly when what is left of the text does not end in a blank: a blank
      before a trailing slash is uncovered only by the first pass. */
  lemma NormalizeTwice(value: J.Json)
    ensures var r := NormalizePublicUrl(value);
      NormalizePublicUrl(J.Str(r)) == r <==> Bare(value) == "" || !IsSpace(Bare(value)[|Bare(value)| - 1])
  {
    var r, text := NormalizePublicUrl(value), Bare(value);
    if text != "" {
      assert r[|r| - 1] == text[|text| - 1];
      SecondPass(r);
      var again := Bare(J.Str(r));
      if again != r && again != "" && !HasScheme(again) && "https://" + again == r {
        NotPrefixed(again, r);
      }
    }
  }

  /** A text without scheme that `https://` turns into one of its own extensions ends with no blank. */
  lemma NotPrefixed(again: string, r: string)
    requires again != "" && !HasScheme(again) && "https://" + again == r && again <= r
    ensures !IsSpace(r[|r| - 1])
  {
    if |again| >= 8 {
      assert again[..8] == r[..8] == "https://";
      assert SchemeEndsAt(again, 5);
    } else {
      assert again[|again| - 1] == "https://"[|again| - 1];
    }
  }

  // ---- One save ------------------------------------------------------------------------------------------

  /** The first and the first beyond the last instant that `toISOString` writes with a four-digit year. */
  const YEAR_0 := -62_167_219_200_000
  const YEAR_10000 := 253_402_300_800_000

  /** From here on a double no longer tells an integer from its successor. */
  const EXACT: nat := 0x20_0000_0000_0000

  /** What the server computes but this model leaves open: the canonical text of the effective Teams
      activation reactions, the two directions between instants and ISO texts, and `n + 1` in doubles. */
  datatype Server = Server(
    activation: Option<J.Json> -> string, iso: int -> string, instant: string -> Option<int>, increment: nat -> nat)

  /** Printed instants read back as themselves while the year has four digits, and not at all later; texts that
      read as stamps have a four-digit year. */
  ghost predicate ClockReads(server: Server) {
    && (forall t :: YEAR_0 <= t < YEAR_10000 ==> server.instant(server.iso(t)) == Some(t))
    && (forall t :: t >= YEAR_10000 ==> server.instant(server.iso(t)) == None)
    && (forall s :: server.instant(s).Some? ==> YEAR_0 <= server.instant(s).value < YEAR_10000)
  }

  /** Doubles count exactly up to 2^53, and stay there. */
  ghost predicate Counts(server: Server) {
    (forall n: nat :: n < EXACT ==> server.increment(n) == n + 1) && server.increment(EXACT) == EXACT
  }

  /** The stored revision: a missing or unusable one counts as zero. */
  function Revision(record: Record): nat {
    match Field(record, "settingsRev")
    case Some(Num(n)) => if n >= 0 then n else 0
    case _ => 0
  }

  function Version(record: Record): string {
    Decimal.Print(Revision(record))
  }

  function Normalized(name: string, value: J.Json): J.Json {
    if name == "publicUrl" then J.Str(NormalizePublicUrl(value)) else value
  }

  predicate Names(patch: Patch, name: string) {
    name in patch && patch[name].Some?
  }

  function MergedField(record: Record, patch: Patch, name: string): Option<J.Json> {
    if Names(patch, name) then Some(Normalized(name, patch[name].value)) else Field(record, name)
  }

  /** Supplied, defined keys change; nothing else does. */
  function Merge(record: Record, patch: Patch): (next: Record)
    ensures forall name :: Field(next, name) == MergedField(record, patch, name)
  {
    map name | name in record.Keys + patch.Keys && (name in record || Names(patch, name))
      :: if Names(patch, name) then Normalized(name, patch[name].value) else record[name]
  }

  const REACTIONS := "teamsMentionReactions"
  const STAMP := "teamsMentionReactionsUpdatedAt"

  function Activation(server: Server, record: Record): string {
    server.activation(Field(record, REACTIONS))
  }

  function StampOf(server: Server, record: Record): Option<int> {
    match Field(record, STAMP)
    case Some(Str(s)) => server.instant(s)
    case _ => None
  }

  function NewStamp(previous: Option<int>, now: int): int {
    match previous
    case None => if now >= 0 then now else 0
    case Some(t) => if now >= t + 1 then now else t + 1
  }

  predicate Restamps(server: Server, record: Record, next: Record, patch: Patch) {
    Names(patch, REACTIONS) && Activation(server, record) != Activation(server, next)
  }

  /** What a save writes. */
  function Saved(server: Server, record: Record, patch: Patch, now: int): Record {
    var merged := Merge(record, patch);
    var stamped :=
      if Restamps(server, record, merged, patch)
      then merged[STAMP := J.Str(server.iso(NewStamp(StampOf(server, record), now)))]
      else merged;
    stamped["settingsRev" := J.Num(server.increment(Revision(record)))]
  }

  /** `SettingsVersionConflict` carries the current version. */
  function Save(server: Server, record: Record, patch: Patch, expectVersion: string, now: int): Result<Record, string> {
    if expectVersion != "" && expectVersion != Version(record) then Err(Version(record))
    else Ok(Saved(server, record, patch, now))
  }

  lemma SavedFields(server: Server, record: Record, patch: Patch, now: int)
    ensures var after := Saved(server, record, patch, now);
      && Revision(after) == server.increment(Revision(record))
      && (forall name :: name != "settingsRev" && name != STAMP ==> Field(after, name) == Field(Merge(record, patch), name))
      && Activation(server, after) == Activation(server, Merge(record, patch))
  {
  }

  // ---- The difference a page sends ---------------------------------------------------------------------------

  /** Key order matches on both sides, so equal serialisations are equal values. */
  predicate ValuesEqual(a: Option<J.Json>, b: Option<J.Json>) {
    a == b
  }

  /** `diffSettingsPayload`: a key is sent when its value is defined and differs from the baseline's own. */
  function Diff(baseline: Patch, form: Patch): (patch: Patch)
    ensures forall name :: name in patch <==>
      name in form && form[name].Some? && !(name in baseline && ValuesEqual(baseline[name], form[name]))
    ensures forall name :: name in patch ==> patch[name] == form[name]
  {
    map name | name in form && form[name].Some? && !(name in baseline && ValuesEqual(baseline[name], form[name])) :: form[name]
  }

  /** The loop of `diffSettingsPayload`. */
  method DiffSettingsPayload(baseline: Patch, form: Patch) returns (patch: Patch)
    ensures patch == Diff(baseline, form)
  {
    patch := map[];
    var names := form.Keys;
    while names != {}
      invariant names <= form.Keys
      invariant patch == map name | name in Diff(baseline, form) && name !in names :: form[name]
    {
      var name :| name in names;
      names := names - {name};
      if form[name].None? || (name in baseline && ValuesEqual(baseline[name], form[name])) {
        continue;
      }
      patch := patch[name := form[name]];
    }
  }

  /** `changedSettingKeys`, before sorting: the keys whose value moved. */
  function ChangedKeys(before: Record, after: Record, ignore: set<string>): (r: set<string>)
    ensures forall name :: name in r <==> name !in ignore && Field(before, name) != Field(after, name)
  {
    set name | name in before.Keys + after.Keys && name !in ignore && !ValuesEqual(Field(before, name), Field(after, name))
  }

  /** What a save shows as changed: exactly the keys the patch names with a new value, and the
      server's own two fields aside nothing else. */
  lemma SaveChangesItsKeys(server: Server, record: Record, patch: Patch, now: int, name: string)
    ensures name in ChangedKeys(record, Saved(server, record, patch, now), {"settingsRev", STAMP}) <==>
      && name != "settingsRev" && name != STAMP && Names(patch, name)
      && Field(record, name) != Some(if name == "publicUrl" then J.Str(NormalizePublicUrl(patch[name].value)) else patch[name].value)
  {
    hide Saved, NormalizePublicUrl;
    if name != "settingsRev" && name != STAMP {
      SavedField(server, record, patch, now, name);
    }
  }

  // ---- Clients ------------------------------------------------------------------------------------------------

  /** A settings page: the version it echoes, the form it was painted with and the form as edited. The
      record it was painted from is kept for the statements below. */
  datatype Page = Page(version: string, painted: Record, baseline: Patch, form: Patch)

  datatype Commit = Commit(before: Record, patch: Patch, now: int, after: Record, page: Option<Page>)

  datatype State = State(record: Record, pages: map<nat, Page>, log: seq<Commit>)

  datatype Action =
    | Load(client: nat, form: Patch)
    | Edit(client: nat, form: Patch)
    | SavePage(client: nat, now: int)
    | SaveUnguarded(patch: Patch, now: int)

  function Committed(server: Server, s: State, patch: Patch, now: int, page: Option<Page>): State {
    var after := Saved(server, s.record, patch, now);
    s.(record := after, log := s.log + [Commit(s.record, patch, now, after, page)])
  }

  function Act(server: Server, s: State, action: Action): State {
    match action
    case Load(client, form) => s.(pages := s.pages[client := Page(Version(s.record), s.record, form, form)])
    case Edit(client, form) =>
      if client in s.pages then s.(pages := s.pages[client := s.pages[client].(form := form)]) else s
    case SavePage(client, now) =>
      if client !in s.pages then s else
      var page := s.pages[client];
      var patch := Diff(page.baseline, page.form);
      (match Save(server, s.record, patch, page.version, now)
       case Err(_) => s
       case Ok(_) => Committed(server, s, patch, now, Some(page)))
    case SaveUnguarded(patch, now) => Committed(server, s, patch, now, None)
  }

  function Run(server: Server, s: State, actions: seq<Action>): State {
    if actions == [] then s else Act(server, Run(server, s, actions[..|actions| - 1]), actions[|actions| - 1])
  }

  function Initial(record: Record): State {
    State(record, map[], [])
  }

  /** The records that were ever stored, oldest first. */
  function History(first: Record, log: seq<Commit>): (h: seq<Record>)
    ensures |h| == |log| + 1 && h[0] == first
    ensures forall i :: 0 <= i < |log| ==> h[i + 1] == log[i].after
  {
    [first] + seq(|log|, i requires 0 <= i < |log| => log[i].after)
  }

  ghost predicate Loaded(first: Record, s: State, page: Page) {
    page.painted in History(first, s.log) && page.version == Version(page.painted)
  }

  ghost predicate Chained(server: Server, first: Record, log: seq<Commit>) {
    forall i :: 0 <= i < |log| ==>
      && log[i].before == History(first, log)[i]
      && log[i].after == Saved(server, log[i].before, log[i].patch, log[i].now)
  }

  ghost predicate RevisionsCount(first: Record, log: seq<Commit>) {
    forall i :: 0 <= i <= |log| ==> Revision(History(first, log)[i]) == Revision(first) + i
  }

  /** A page's commit met the record that the page was painted from. */
  ghost predicate GuardsMet(log: seq<Commit>) {
    forall i :: 0 <= i < |log| && log[i].page.Some? ==> log[i].before == log[i].page.value.painted
  }

  ghost predicate PagesSendDiffs(log: seq<Commit>) {
    forall i :: 0 <= i < |log| && log[i].page.Some? ==>
      log[i].patch == Diff(log[i].page.value.baseline, log[i].page.value.form)
  }

  /** The revision has not outgrown the doubles. */
  ghost predicate Countable(server: Server, first: Record, log: seq<Commit>) {
    Counts(server) && Revision(first) + |log| <= EXACT
  }

  ghost predicate Invariant(server: Server, first: Record, s: State) {
    && Chained(server, first, s.log)
    && s.record == History(first, s.log)[|s.log|]
    && PagesSendDiffs(s.log)
    && (Countable(server, first, s.log) ==> RevisionsCount(first, s.log) && GuardsMet(s.log))
    && forall c :: c in s.pages ==> Loaded(first, s, s.pages[c])
  }

  lemma VersionsAreRevisions(a: Record, b: Record)
    ensures Version(a) == Version(b) <==> Revision(a) == Revision(b)
    ensures Version(a) != ""
  {
    if Version(a) == Version(b) {
      Decimal.PrintInjective(Revision(a), Revision(b));
    }
  }

  lemma HistoryGrows(first: Record, log: seq<Commit>, commit: Commit)
    ensures History(first, log + [commit]) == History(first, log) + [commit.after]
  {
  }

  /** Equal versions were given only to equal records. */
  lemma SameVersionSameRecord(first: Record, log: seq<Commit>, a: Record, b: Record)
    requires RevisionsCount(first, log)
    requires a in History(first, log) && b in History(first, log) && Version(a) == Version(b)
    ensures a == b
  {
    VersionsAreRevisions(a, b);
    var h := History(first, log);
    var i :| 0 <= i < |h| && h[i] == a;
    var j :| 0 <= j < |h| && h[j] == b;
    assert Revision(h[i]) == Revision(first) + i && Revision(h[j]) == Revision(first) + j;
  }

  lemma ChainedGrows(server: Server, first: Record, log: seq<Commit>, commit: Commit)
    requires Chained(server, first, log) && commit.before == History(first, log)[|log|]
    requires commit.after == Saved(server, commit.before, commit.patch, commit.now)
    ensures Chained(server, first, log + [commit])
  {
    hide Saved;
    HistoryGrows(first, log, commit);
  }

  lemma RevisionsGrow(first: Record, log: seq<Commit>, commit: Commit)
    requires RevisionsCount(first, log) && Revision(commit.after) == Revision(History(first, log)[|log|]) + 1
    ensures RevisionsCount(first, log + [commit])
  {
    hide Revision;
    HistoryGrows(first, log, commit);
  }

  lemma LoadedStays(first: Record, s: State, commit: Commit, page: Page)
    requires Loaded(first, s, page)
    ensures Loaded(first, s.(record := commit.after, log := s.log + [commit]), page)
  {
    hide Version;
    HistoryGrows(first, s.log, commit);
  }

  lemma GuardsGrow(log: seq<Commit>, commit: Commit)
    ensures GuardsMet(log) && (commit.page.Some? ==> commit.before == commit.page.value.painted) ==> GuardsMet(log + [commit])
    ensures PagesSendDiffs(log) && (commit.page.Some? ==> commit.patch == Diff(commit.page.value.baseline, commit.page.value.form))
      ==> PagesSendDiffs(log + [commit])
  {
    hide Diff;
    assert forall i :: 0 <= i < |log| ==> (log + [commit])[i] == log[i];
  }

  lemma CountStep(server: Server, first: Record, log: seq<Commit>, commit: Commit, n: nat)
    requires Countable(server, first, log + [commit]) && n == Revision(first) + |log|
    ensures Countable(server, first, log) && server.increment(n) == n + 1
  {
    hide Revision;
  }

  lemma CommitKeeps(server: Server, first: Record, s: State, patch: Patch, now: int, page: Option<Page>)
    requires Invariant(server, first, s)
    requires page.Some? ==>
      && patch == Diff(page.value.baseline, page.value.form)
      && (Countable(server, first, s.log) ==> s.record == page.value.painted)
    ensures Invariant(server, first, Committed(server, s, patch, now, page))
  {
    hide Saved, Diff, Chained, RevisionsCount, Revision, Merge, MergedField, Activation, Loaded, GuardsMet, PagesSendDiffs, Countable;
    var t := Committed(server, s, patch, now, page);
    var commit := Commit(s.record, patch, now, Saved(server, s.record, patch, now), page);
    HistoryGrows(first, s.log, commit);
    ChainedGrows(server, first, s.log, commit);
    GuardsGrow(s.log, commit);
    if Countable(server, first, t.log) {
      CountStep(server, first, s.log, commit, Revision(first) + |s.log|);
      LastRevision(first, s.log);
      SavedFields(server, s.record, patch, now);
      RevisionsGrow(first, s.log, commit);
    }
    forall c | c in t.pages ensures Loaded(first, t, t.pages[c]) {
      LoadedStays(first, s, commit, s.pages[c]);
    }
  }

  lemma LastRevision(first: Record, log: seq<Commit>)
    requires RevisionsCount(first, log)
    ensures Revision(History(first, log)[|log|]) == Revision(first) + |log|
  {
  }

  lemma LoadKeeps(server: Server, first: Record, s: State, client: nat, page: Page)
    requires Invariant(server, first, s) && Loaded(first, s, page)
    ensures Invariant(server, first, s.(pages := s.pages[client := page]))
  {
    var t := s.(pages := s.pages[client := page]);
    forall c | c in t.pages ensures Loaded(first, t, t.pages[c]) {
      assert c != client ==> Loaded(first, s, s.pages[c]);
    }
  }

  lemma ActKeeps(server: Server, first: Record, s: State, action: Action)
    requires Invariant(server, first, s)
    ensures Invariant(server, first, Act(server, s, action))
  {
    hide Saved, Diff, Chained, RevisionsCount, GuardsMet, PagesSendDiffs, Countable, Version;
    match action
    case Load(client, form) =>
      assert s.record in History(first, s.log);
      LoadKeeps(server, first, s, client, Page(Version(s.record), s.record, form, form));
    case Edit(client, form) =>
      if client in s.pages {
        assert Loaded(first, s, s.pages[client]);
        LoadKeeps(server, first, s, client, s.pages[client].(form := form));
      }
    case SavePage(client, now) =>
      if client in s.pages {
        var page := s.pages[client];
        assert Loaded(first, s, page);
        VersionsAreRevisions(page.painted, s.record);
        if page.version == Version(s.record) {
          if Countable(server, first, s.log) {
            SameVersionSameRecord(first, s.log, page.painted, s.record);
          }
          CommitKeeps(server, first, s, Diff(page.baseline, page.form), now, Some(page));
        }
      }
    case SaveUnguarded(patch, now) => CommitKeeps(server, first, s, patch, now, None);
  }

  lemma {:induction false} RunKeeps(server: Server, first: Record, actions: seq<Action>)
    ensures Invariant(server, first, Run(server, Initial(first), actions))
  {
    if actions != [] {
      RunKeeps(server, first, actions[..|actions| - 1]);
      ActKeeps(server, first, Run(server, Initial(first), actions[..|actions| - 1]), actions[|actions| - 1]);
    }
  }

  // ---- No lost update -----------------------------------------------------------------------------------------

  /** Over every interleaving in which the revision stays within the exact doubles: the revision is the first one
      plus the number of commits; equal versions mean equal records; and a guarded save commits only on the record
      its page was painted from. */
  lemma VersionsIdentifyRecords(server: Server, first: Record, actions: seq<Action>)
    requires Countable(server, first, Run(server, Initial(first), actions).log)
    ensures var s := Run(server, Initial(first), actions);
      && Revision(s.record) == Revision(first) + |s.log|
      && (forall a, b :: a in History(first, s.log) && b in History(first, s.log) && Version(a) == Version(b) ==> a == b)
      && GuardsMet(s.log)
  {
    hide Version, Run;
    RunKeeps(server, first, actions);
    var s := Run(server, Initial(first), actions);
    LastRevision(first, s.log);
    forall a, b | a in History(first, s.log) && b in History(first, s.log) && Version(a) == Version(b) ensures a == b {
      SameVersionSameRecord(first, s.log, a, b);
    }
  }

  /** A save gives the record another version exactly while the revision is below 2^53. */
  lemma VersionMovesExactly(server: Server, record: Record, patch: Patch, now: int)
    requires Counts(server) && Revision(record) <= EXACT
    ensures Version(Saved(server, record, patch, now)) != Version(record) <==> Revision(record) < EXACT
  {
    hide Saved, Version;
    SavedFields(server, record, patch, now);
    VersionsAreRevisions(Saved(server, record, patch, now), record);
  }

  /** Commit `i` is the last that names the key. */
  ghost predicate LastNaming(log: seq<Commit>, name: string, i: nat) {
    i < |log| && Names(log[i].patch, name) && forall j :: i < j < |log| ==> !Names(log[j].patch, name)
  }

  ghost predicate Unnamed(log: seq<Commit>, name: string) {
    forall j :: 0 <= j < |log| ==> !Names(log[j].patch, name)
  }

  ghost predicate ValueIs(log: seq<Commit>, name: string, initial: Option<J.Json>, value: Option<J.Json>) {
    && (Unnamed(log, name) ==> value == initial)
    && (forall i: nat :: LastNaming(log, name, i) ==> value == Some(Normalized(name, log[i].patch[name].value)))
  }

  lemma ValueMoves(log: seq<Commit>, commit: Commit, name: string, initial: Option<J.Json>, value: Option<J.Json>)
    requires ValueIs(log, name, initial, value)
    ensures ValueIs(log + [commit], name, initial,
                    if Names(commit.patch, name) then Some(Normalized(name, commit.patch[name].value)) else value)
  {
    hide Normalized;
    var longer := log + [commit];
    assert longer[|log|] == commit;
    if !Names(commit.patch, name) {
      assert Unnamed(longer, name) ==> Unnamed(log, name) by {
        assert forall j :: 0 <= j < |log| ==> log[j] == longer[j];
      }
      forall i: nat | LastNaming(longer, name, i) ensures LastNaming(log, name, i) && longer[i] == log[i] {
        assert forall j :: 0 <= j < |log| ==> log[j] == longer[j];
      }
    }
  }

  lemma SavedField(server: Server, record: Record, patch: Patch, now: int, name: string)
    requires name != "settingsRev" && name != STAMP
    ensures Field(Saved(server, record, patch, now), name) ==
            if Names(patch, name) then Some(Normalized(name, patch[name].value)) else Field(record, name)
  {
    hide Saved, Normalized, Revision, Activation;
    SavedFields(server, record, patch, now);
    assert Field(Merge(record, patch), name) == MergedField(record, patch, name);
  }

  lemma ChainedFront(server: Server, first: Record, log: seq<Commit>)
    requires Chained(server, first, log) && log != []
    ensures var front, last := log[..|log| - 1], log[|log| - 1];
      && Chained(server, first, front) && last.before == History(first, front)[|front|]
      && last.after == Saved(server, last.before, last.patch, last.now)
      && History(first, log)[|log|] == last.after
  {
    hide Saved, History;
    var front := log[..|log| - 1];
    assert log == front + [log[|log| - 1]];
    HistoryGrows(first, front, log[|log| - 1]);
    forall i | 0 <= i < |front|
      ensures front[i].before == History(first, front)[i]
      ensures front[i].after == Saved(server, front[i].before, front[i].patch, front[i].now)
    {
      assert log[i].before == History(first, log)[i];
    }
  }

  lemma NothingNamed(name: string, value: Option<J.Json>)
    ensures ValueIs([], name, value, value)
  {
  }

  lemma {:induction false} ChainValue(server: Server, first: Record, log: seq<Commit>, name: string)
    requires Chained(server, first, log) && name != "settingsRev" && name != STAMP
    ensures ValueIs(log, name, Field(first, name), Field(History(first, log)[|log|], name))
  {
    hide Saved, Normalized, Chained, ValueIs, Names, Field;
    if log == [] {
      NothingNamed(name, Field(first, name));
    } else {
      var front, last := log[..|log| - 1], log[|log| - 1];
      assert log == front + [last];
      ChainedFront(server, first, log);
      ChainValue(server, first, front, name);
      SavedField(server, last.before, last.patch, last.now, name);
      ValueMoves(front, last, name, Field(first, name), Field(last.before, name));
    }
  }

  /** Each key holds the value of the last committed patch that names it, and is as it first was if none
      does: no save reverts a key it did not name. */
  lemma LastWriterWins(server: Server, first: Record, actions: seq<Action>, name: string)
    requires name != "settingsRev" && name != STAMP
    ensures var s := Run(server, Initial(first), actions);
      && (Unnamed(s.log, name) ==> Field(s.record, name) == Field(first, name))
      && (forall i: nat :: LastNaming(s.log, name, i) ==>
            var sent := s.log[i].patch[name].value;
            Field(s.record, name) == Some(if name == "publicUrl" then J.Str(NormalizePublicUrl(sent)) else sent))
  {
    hide Saved, NormalizePublicUrl, Chained, RevisionsCount, GuardsMet, Loaded, Run, Unnamed, LastNaming;
    RunKeeps(server, first, actions);
    ChainValue(server, first, Run(server, Initial(first), actions).log, name);
  }

  /** A page's committed save puts every edited key at its form value and leaves every other key as it was
      at that moment. */
  lemma PageSavesItsEdits(server: Server, first: Record, actions: seq<Action>, i: nat, name: string)
    requires name != "settingsRev" && name != STAMP
    requires i < |Run(server, Initial(first), actions).log|
    requires Run(server, Initial(first), actions).log[i].page.Some?
    ensures var commit := Run(server, Initial(first), actions).log[i];
      var page := commit.page.value;
      Field(commit.after, name) ==
        if name in page.form && page.form[name].Some? && !(name in page.baseline && page.baseline[name] == page.form[name])
        then Some(if name == "publicUrl" then J.Str(NormalizePublicUrl(page.form[name].value)) else page.form[name].value)
        else Field(commit.before, name)
  {
    hide Saved, NormalizePublicUrl;
    RunKeeps(server, first, actions);
    var commit := Run(server, Initial(first), actions).log[i];
    assert commit.after == Saved(server, commit.before, commit.patch, commit.now);
    assert PagesSendDiffs(Run(server, Initial(first), actions).log);
    assert commit.patch == Diff(commit.page.value.baseline, commit.page.value.form);
    SavedField(server, commit.before, commit.patch, commit.now, name);
  }

  /** Absent, empty, or with a scheme and without a trailing slash. */
  ghost predicate CleanUrl(record: Record) {
    match Field(record, "publicUrl")
    case None => true
    case Some(Str(url)) => url == "" || (HasScheme(url) && url[|url| - 1] != '/')
    case _ => false
  }

  /** However the saves interleave, the stored public URL is clean once any commit names it, and stays clean if the
      first record's was. */
  lemma PublicUrlIsClean(server: Server, first: Record, actions: seq<Action>)
    ensures var s := Run(server, Initial(first), actions);
      CleanUrl(first) || !Unnamed(s.log, "publicUrl") ==> CleanUrl(s.record)
  {
    hide Run, HasScheme, NormalizePublicUrl;
    var s := Run(server, Initial(first), actions);
    LastWriterWins(server, first, actions, "publicUrl");
    if !Unnamed(s.log, "publicUrl") {
      var i := LastNamer(s.log, "publicUrl");
      var sent := s.log[i].patch["publicUrl"].value;
      assert Field(s.record, "publicUrl") == Some(J.Str(NormalizePublicUrl(sent)));
    }
  }

  lemma {:induction false} LastNamer(log: seq<Commit>, name: string) returns (i: nat)
    requires !Unnamed(log, name)
    ensures LastNaming(log, name, i)
  {
    var n := |log| - 1;
    if Names(log[n].patch, name) {
      i := n;
    } else {
      var k :| 0 <= k < |log| && Names(log[k].patch, name);
      assert log[..n][k] == log[k];
      i := LastNamer(log[..n], name);
    }
  }

  // ---- The Teams stamp ------------------------------------------------------------------------------------------

  /** One commit: the stamp moves exactly with the effective activation, and then strictly forward,
      whatever the clock says, as long as the new instant still has a four-digit year; from the year
      10000 on the stored text no longer reads as a stamp. */
  lemma StampStep(server: Server, record: Record, patch: Patch, now: int)
    requires ClockReads(server) && !Names(patch, STAMP)
    ensures var after := Saved(server, record, patch, now);
      var before, stamp := StampOf(server, record), StampOf(server, after);
      var changed := server.activation(Field(record, "teamsMentionReactions")) != server.activation(Field(after, "teamsMentionReactions"));
      var earliest := if before.None? then 0 else before.value + 1;
      var due := if now >= earliest then now else earliest;
      && (!changed ==> Field(after, STAMP) == Field(record, STAMP) && stamp == before)
      && (changed ==> stamp == if due < YEAR_10000 then Some(due) else None)
  {
    hide Merge;
    var merged := Merge(record, patch);
    SavedFields(server, record, patch, now);
    assert Field(merged, REACTIONS) == MergedField(record, patch, REACTIONS);
    assert Field(merged, STAMP) == MergedField(record, patch, STAMP);
    assert NewStamp(StampOf(server, record), now) >= YEAR_0;
  }

  /** A server whose instants read as decimal milliseconds, in years of four digits. */
  function DecimalServer(): Server {
    Server(
      (value: Option<J.Json>) => if value.None? then "off" else "on",
      (t: int) => Decimal.IntText(t),
      (s: string) => ReadInstant(s),
      (n: nat) => if n < EXACT then n + 1 else n)
  }

  function ReadInstant(s: string): Option<int> {
    if Decimal.IsCursorNumber(s) && Decimal.IntText(Decimal.ParseInt(s)) == s && YEAR_0 <= Decimal.ParseInt(s) < YEAR_10000
    then Some(Decimal.ParseInt(s)) else None
  }

  lemma InstantReads(t: int)
    requires t >= YEAR_0
    ensures ReadInstant(Decimal.IntText(t)) == if t < YEAR_10000 then Some(t) else None
  {
    Decimal.SixtyFourBits();
    if t < YEAR_10000 {
      Decimal.IntRoundTrip(t);
    } else {
      Decimal.ParsePrint(t);
      assert Decimal.IsDigit(Decimal.Print(t)[0]);
    }
  }

  lemma DecimalClock()
    ensures ClockReads(DecimalServer()) && Counts(DecimalServer())
  {
    hide ReadInstant;
    var server := DecimalServer();
    forall t | t >= YEAR_0 ensures server.instant(server.iso(t)) == if t < YEAR_10000 then Some(t) else None {
      InstantReads(t);
    }
    forall s | server.instant(s).Some? ensures YEAR_0 <= server.instant(s).value < YEAR_10000 {
      InstantRange(s);
    }
  }

  lemma InstantRange(s: string)
    requires ReadInstant(s).Some?
    ensures YEAR_0 <= ReadInstant(s).value < YEAR_10000
  {
  }

  function AtLimit(): Record {
    map["settingsRev" := J.Num(EXACT)]
  }

  function StaleActions(patch: Patch): seq<Action> {
    [Load(0, map[]), SaveUnguarded(patch, 0), SavePage(0, 0)]
  }

  /** The page was painted from the first record and commits on the second, which has the same version. */
  lemma StaleSave(server: Server, first: Record, patch: Patch)
    requires Version(Saved(server, first, patch, 0)) == Version(first) && Saved(server, first, patch, 0) != first
    ensures var s := Run(server, Initial(first), StaleActions(patch));
      && |s.log| == 2 && s.log[1].page.Some? && s.log[1].before != s.log[1].page.value.painted
  {
    hide Saved, Version, Diff, Run;
    var page := Page(Version(first), first, map[], map[]);
    var second := Saved(server, first, patch, 0);
    var s1 := State(first, map[0 := page], []);
    var s2 := State(second, map[0 := page], [Commit(first, patch, 0, second, None)]);
    RunThree(server, Initial(first), StaleActions(patch));
    assert Act(server, Initial(first), Load(0, map[])) == s1;
    assert Act(server, s1, SaveUnguarded(patch, 0)) == s2;
  }

  /** A counter at 2^53: another save goes unnoticed, and a page saves against a record it was not painted from. */
  lemma StaleSaveAtLimit()
    ensures Counts(DecimalServer())
    ensures var s := Run(DecimalServer(), Initial(AtLimit()), StaleActions(map["a" := Some(J.Bool(true))]));
      && |s.log| == 2 && s.log[1].page.Some? && s.log[1].before != s.log[1].page.value.painted
  {
    hide Saved, Version, Run, DecimalServer;
    var first, patch: Patch := AtLimit(), map["a" := Some(J.Bool(true))];
    DecimalClock();
    VersionMovesExactly(DecimalServer(), first, patch, 0);
    SavedField(DecimalServer(), first, patch, 0, "a");
    assert Field(first, "a") == None;
    StaleSave(DecimalServer(), first, patch);
  }

  lemma RunThree(server: Server, s: State, actions: seq<Action>)
    requires |actions| == 3
    ensures Run(server, s, actions) == Act(server, Act(server, Act(server, s, actions[0]), actions[1]), actions[2])
  {
    hide Act;
    assert actions[..2][..1] == actions[..1] && actions[..1][..0] == [];
    assert Run(server, s, actions[..0]) == s;
    assert Run(server, s, actions[..1]) == Act(server, s, actions[0]);
    assert Run(server, s, actions[..2]) == Act(server, Act(server, s, actions[0]), actions[1]);
  }

  /** A save whose clock reads the first instant of the year 10000: the activation changes and the stored stamp is
      no longer one. */
  lemma StampLost()
    ensures ClockReads(DecimalServer())
    ensures var server, record: Record, patch: Patch := DecimalServer(), map[], map[REACTIONS := Some(J.Bool(true))];
      var after := Saved(server, record, patch, YEAR_10000);
      Activation(server, record) != Activation(server, after) && STAMP in after && StampOf(server, after) == None
  {
    DecimalClock();
    var server, record: Record, patch: Patch := DecimalServer(), map[], map[REACTIONS := Some(J.Bool(true))];
    var merged := Merge(record, patch);
    assert Field(merged, REACTIONS) == MergedField(record, patch, REACTIONS);
    assert Activation(server, merged) == "on" && Activation(server, record) == "off";
    StampStep(server, record, patch, YEAR_10000);
  }

  ghost predicate Readable(server: Server, log: seq<Commit>) {
    forall i :: 0 <= i < |log| ==>
      !Names(log[i].patch, STAMP) && NewStamp(StampOf(server, log[i].before), log[i].now) < YEAR_10000
  }

  ghost predicate ChangedBetween(server: Server, h: seq<Record>, i: nat, j: nat)
    requires i <= j < |h|
  {
    exists k :: i <= k < j && ChangesAt(server, h, k)
  }

  predicate ChangesAt(server: Server, h: seq<Record>, k: nat)
    requires k + 1 < |h|
  {
    Activation(server, h[k]) != Activation(server, h[k + 1])
  }

  predicate MovesAt(server: Server, h: seq<Record>, k: nat)
    requires k + 1 < |h|
  {
    var a, b := StampOf(server, h[k]), StampOf(server, h[k + 1]);
    if ChangesAt(server, h, k) then b.Some? && (a.Some? ==> a.value < b.value) else b == a
  }

  lemma {:induction false} StampsGrowAlong(server: Server, h: seq<Record>, i: nat, j: nat)
    requires i <= j < |h|
    requires forall k :: 0 <= k < |h| - 1 ==> MovesAt(server, h, k)
    ensures var a, b := StampOf(server, h[i]), StampOf(server, h[j]);
      && (!ChangedBetween(server, h, i, j) ==> b == a)
      && (ChangedBetween(server, h, i, j) ==> b.Some? && (a.Some? ==> a.value < b.value))
    decreases j - i
  {
    hide StampOf, ChangesAt;
    if i < j {
      StampsGrowAlong(server, h, i, j - 1);
      assert MovesAt(server, h, j - 1);
      if k :| i <= k < j - 1 && ChangesAt(server, h, k) {
        assert ChangedBetween(server, h, i, j);
      }
    }
  }

  lemma CommitsMoveStamps(server: Server, first: Record, log: seq<Commit>, k: nat)
    requires ClockReads(server) && Chained(server, first, log) && Readable(server, log) && k < |log|
    ensures MovesAt(server, History(first, log), k)
  {
    hide Saved, StampOf, ClockReads;
    StampStep(server, log[k].before, log[k].patch, log[k].now);
  }

  /** Over every run in which no patch names the stamp: between any two moments the stamp has strictly
      grown if the effective activation changed in between, even from A to B and back to A, and is the
      same otherwise, however the clock jumped. */
  lemma StampTracksActivation(server: Server, first: Record, actions: seq<Action>, i: nat, j: nat)
    requires ClockReads(server)
    requires Readable(server, Run(server, Initial(first), actions).log)
    requires i <= j <= |Run(server, Initial(first), actions).log|
    ensures var h := History(first, Run(server, Initial(first), actions).log);
      var a, b := StampOf(server, h[i]), StampOf(server, h[j]);
      && (!ChangedBetween(server, h, i, j) ==> b == a)
      && (ChangedBetween(server, h, i, j) ==> b.Some? && (a.Some? ==> a.value < b.value))
  {
    hide Run, Saved, Activation, StampOf, ClockReads, Readable, Chained, RevisionsCount, GuardsMet, Loaded;
    RunKeeps(server, first, actions);
    var log := Run(server, Initial(first), actions).log;
    forall k | 0 <= k < |History(first, log)| - 1
      ensures MovesAt(server, History(first, log), k)
    {
      CommitsMoveStamps(server, first, log, k);
    }
    StampsGrowAlong(server, History(first, log), i, j);
  }
}

/** `saveSettings` on the settings file, under the lock. */
module SettingsStoreObject {
  import opened Basics
  import opened Settings
  import J = JsonText
  import Decimal

  class SettingsStore {
    const server: Server
    var file: Record

    constructor (server: Server, file: Record)
      ensures this.server == server && this.file == file
    {
      this.server := server;
      this.file := file;
    }

    /** A version is never the empty text that asks for no check, and two records have the same version exactly
        when they have the same revision. */
    method GetSettingsVersion() returns (version: string)
      ensures version == Version(file) && version != ""
      ensures version == match Field(file, "settingsRev")
                         case Some(Num(n)) => (if n >= 0 then Decimal.Print(n) else "0")
                         case _ => "0"
      ensures forall other: Record :: version == Version(other) <==> Revision(file) == Revision(other)
    {
      forall other: Record ensures Version(file) == Version(other) <==> Revision(file) == Revision(other) {
        VersionsAreRevisions(file, other);
      }
      VersionsAreRevisions(file, file);
      version := Version(file);
    }

    /** A conflict leaves the file as it was; otherwise the patch is merged key by key. */
    method SaveSettings(patch: Patch, expectVersion: string, now: int) returns (r: Result<Record, string>)
      modifies this
      ensures r == Save(server, old(file), patch, expectVersion, now)
      ensures file == if r.Ok? then r.value else old(file)
      ensures r.Err? <==> expectVersion != "" && expectVersion != Version(old(file))
      ensures r.Err? ==> r.error == Version(old(file))
      ensures r.Ok? ==>
        && Field(file, "settingsRev") == Some(J.Num(server.increment(Revision(old(file)))))
        && forall name :: name != "settingsRev" && name != STAMP ==>
             Field(file, name) ==
               if name in patch && patch[name].Some?
               then Some(if name == "publicUrl" then J.Str(NormalizePublicUrl(patch[name].value)) else patch[name].value)
               else Field(old(file), name)
    {
      hide NormalizePublicUrl;
      var current := file;
      var currentVersion := Version(current);
      if expectVersion != "" && expectVersion != currentVersion {
        return Err(currentVersion);
      }
      var next := current;
      var names := patch.Keys;
      while names != {}
        invariant names <= patch.Keys
        invariant forall name :: Field(next, name) == FieldSoFar(current, patch, names, name)
      {
        var name :| name in names;
        names := names - {name};
        if patch[name].None? {
          continue;
        }
        ghost var sofar := next;
        next := next[name := Normalized(name, patch[name].value)];
        forall n ensures Field(next, n) == FieldSoFar(current, patch, names, n) {
          assert Field(sofar, n) == FieldSoFar(current, patch, names + {name}, n);
        }
      }
      FieldsDecide(next, Merge(current, patch));
      if Names(patch, REACTIONS) && Activation(server, current) != Activation(server, next) {
        next := next[STAMP := J.Str(server.iso(NewStamp(StampOf(server, current), now)))];
      }
      next := next["settingsRev" := J.Num(server.increment(Revision(current)))];
      forall name | name != "settingsRev" && name != STAMP
        ensures Field(next, name) ==
          if name in patch && patch[name].Some?
          then Some(if name == "publicUrl" then J.Str(NormalizePublicUrl(patch[name].value)) else patch[name].value)
          else Field(current, name)
      {
        SavedField(server, current, patch, now, name);
      }
      file := next;
      return Ok(next);
    }
  }

  /** Part-way through the patch, with `names` still to come. */
  function FieldSoFar(current: Record, patch: Patch, names: set<string>, name: string): Option<J.Json> {
    if name in names then Field(current, name) else MergedField(current, patch, name)
  }

  lemma FieldsDecide(a: Record, b: Record)
    requires forall name :: Field(a, name) == Field(b, name)
    ensures a == b
  {
    forall name ensures name in a <==> name in b {
      assert Field(a, name) == Field(b, name);
    }
    forall name | name in a ensures a[name] == b[name] {
      assert Field(a, name) == Field(b, name);
    }
  }
}
