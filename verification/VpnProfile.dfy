/** The OpenVPN profile adapter: the line machine, the grammar it accepts and the image it writes. */
module VpnProfile {
  import opened Basics
  import opened Regexes
  import Decimal

  const PROFILE_MAX_BYTES := 256 * 1024

  // ---- Texts and lines -----------------------------------------------------------------------------------

  /** The characters refused by the range check: what is left is tab, newline, printable ASCII and the
      characters outside the basic plane. */
  predicate Forbidden(c: char) {
    c as int <= 0x08 || 0x0b <= c as int <= 0x1f || 0x7f <= c as int <= 0xffff
  }

  predicate Admissible(text: string) {
    forall i :: 0 <= i < |text| ==> !Forbidden(text[i])
  }

  function Utf8Size(text: string): nat {
    if text == "" then 0
    else Utf8Size(text[..|text| - 1]) +
         (var c := text[|text| - 1] as int; if c < 0x80 then 1 else if c < 0x800 then 2 else if c < 0x1_0000 then 3 else 4)
  }

  /** `splitlines` of an admissible text, where newline is the only line boundary. */
  function SplitLines(text: string): (lines: seq<string>)
    ensures lines == [] <==> text == ""
  {
    if text == "" then []
    else if text[0] == '\n' then [""] + SplitLines(text[1..])
    else
      var rest := SplitLines(text[1..]);
      if rest == [] then [[text[0]]] else [[text[0]] + rest[0]] + rest[1..]
  }

  /** `"\n".join(lines) + "\n"`. */
  function JoinLines(lines: seq<string>): string {
    Join(lines, "\n") + "\n"
  }

  predicate IsBlank(c: char) {
    c == ' ' || c == '\t'
  }

  function StripLeft(s: string): string {
    if s != "" && IsBlank(s[0]) then StripLeft(s[1..]) else s
  }

  function StripRight(s: string): string {
    if s != "" && IsBlank(s[|s| - 1]) then StripRight(s[..|s| - 1]) else s
  }

  /** `strip` of one line of an admissible text. */
  function Strip(s: string): string {
    StripRight(StripLeft(s))
  }

  /** `line.split(" ", 1)[0]` */
  function FirstWord(line: string): (w: string)
    ensures w <= line && ' ' !in w && (|w| < |line| ==> line[|w|] == ' ')
  {
    if line == "" || line[0] == ' ' then "" else [line[0]] + FirstWord(line[1..])
  }

  /** `line.rsplit(" ", 1)[1]` of a line with a space. */
  function LastWord(line: string): (w: string)
    ensures ' ' !in w && |w| <= |line| && line[|line| - |w|..] == w
    ensures |w| < |line| ==> line[|line| - |w| - 1] == ' '
  {
    if line == "" || line[|line| - 1] == ' ' then "" else LastWord(line[..|line| - 1]) + [line[|line| - 1]]
  }

  // ---- The kinds of line ------------------------------------------------------------------------------------

  const TAGS: set<string> := {"ca", "cert", "key", "tls-auth", "tls-crypt"}

  function Opening(tag: string): string {
    "<" + tag + ">"
  }

  function Closing(tag: string): string {
    "</" + tag + ">"
  }

  const DIGIT := Chars([Range('0', '9')], false)
  const NONZERO := Chars([Range('1', '9')], false)
  const ALPHANUMERIC := [Range('A', 'Z'), Range('a', 'z'), Range('0', '9')]
  const HOST_CHARS := ALPHANUMERIC + [Range('.', '.'), Range('-', '-')]

  const SLASH := Optional(Text("/"))
  const TAG_NAME := Times(Chars([Range('a', 'z'), Range('-', '-')], false), 1, None)

  /** `</?[a-z-]+>` */
  const ANY_TAG := Then(Text("<"), Then(SLASH, Then(TAG_NAME, Text(">"))))

  const HOST := Then(Chars(ALPHANUMERIC, false),
                     Optional(Then(Times(Chars(HOST_CHARS, false), 0, Some(251)), Chars(ALPHANUMERIC, false))))
  const DOTTED := Then(Times(Then(Times(DIGIT, 1, Some(3)), Text(".")), 3, Some(3)), Times(DIGIT, 1, Some(3)))
  const PORT := Then(NONZERO, Times(DIGIT, 0, Some(4)))
  const REMOTE := Then(Text("remote "), Then(Or(HOST, DOTTED), Then(Text(" "), PORT)))

  const CIPHER := Or(Text("AES-256-GCM"), Or(Text("AES-128-GCM"), Or(Text("AES-256-CBC"),
                     Or(Text("AES-128-CBC"), Text("CHACHA20-POLY1305")))))
  const QUOTED_CHAR := Or(Chars([Range('"', '"'), Range('\\', '\\')], true),
                          Then(Text("\\"), Chars([Range('"', '"'), Range('\\', '\\')], false)))

  function Quoted(r: Regex): Regex {
    Then(Text("\""), Then(r, Text("\"")))
  }

  /** An optional directive: its keyword, and the pattern of what follows the keyword and a space. */
  datatype Setting = Setting(name: string, value: Regex)

  /** The patterns of `_validate_optional`. */
  const OPTIONAL: seq<Setting> := [
    Setting("cipher", CIPHER),
    Setting("data-ciphers", Then(CIPHER, Times(Then(Text(":"), CIPHER), 0, None))),
    Setting("data-ciphers-fallback", CIPHER),
    Setting("verify-x509-name", Then(Quoted(Times(QUOTED_CHAR, 1, None)),
                                     Optional(Then(Text(" "), Quoted(Or(Text("subject"), Or(Text("name"), Text("name-prefix")))))))),
    Setting("auth", Quoted(Then(Text("SHA"), Or(Text("256"), Or(Text("384"), Text("512")))))),
    Setting("resolv-retry", Quoted(Or(Text("infinite"), Then(NONZERO, Times(DIGIT, 0, Some(3)))))),
    Setting("route-delay", Quoted(Or(DIGIT, Or(Then(Chars([Range('1', '5')], false), DIGIT), Text("60"))))),
    Setting("reneg-sec", Quoted(Or(Text("0"), Then(NONZERO, Times(DIGIT, 0, Some(6)))))),
    Setting("key-direction", Quoted(Chars([Range('0', '1')], false)))]

  predicate IsSetting(setting: Setting, line: string) {
    Matches(Then(Text(setting.name + " "), setting.value), line)
  }

  predicate IsOptional(line: string) {
    exists i :: 0 <= i < |OPTIONAL| && IsSetting(OPTIONAL[i], line)
  }

  /** `int(line.rsplit(" ", 1)[1]) <= 65535` */
  predicate PortInRange(line: string) {
    Decimal.AllDigits(LastWord(line)) && Decimal.Parse(LastWord(line)) <= 65535
  }

  predicate IsRemote(line: string) {
    Matches(REMOTE, line) && PortInRange(line)
  }

  function RouteLine(target: string, gateway: string): string {
    "route " + target + " 255.255.255.255 " + gateway
  }

  function Exact(host: string): set<string> {
    {"client", "dev tun0", "proto tcp-client", "nobind", "persist-key", "persist-tun", "auth-user-pass /vpn/auth",
     "auth-nocache", "route-nopull", "script-security 1", "remote-cert-tls server", "verb 3",
     RouteLine("remote_host", "net_gateway"), RouteLine(host, "vpn_gateway")}
  }

  /** The name under which a directive is remembered, so that it cannot occur twice. */
  function Slot(line: string, host: string): Option<string> {
    if "remote " <= line then if IsRemote(line) then Some("remote") else None
    else if line in Exact(host) then Some(line)
    else if IsOptional(line) then Some(FirstWord(line))
    else None
  }

  /** What a directive becomes for OpenVPN 3. */
  function DirectiveImage(line: string): seq<string> {
    if line == "dev tun0" then ["dev tun"]
    else if line == "auth-user-pass /vpn/auth" then ["auth-user-pass"]
    else if line == "auth-nocache" || line == "script-security 1" then []
    else if "data-ciphers " <= line || "data-ciphers-fallback " <= line then []
    else [line]
  }

  // ---- The line machine ---------------------------------------------------------------------------------------

  datatype State = State(seen: set<string>, blocks: set<string>, block: Option<string>, output: seq<string>)

  const START := State({}, {}, None, [])

  /** A line inside a block. */
  function Inside(s: State, tag: string, raw: string): Option<State> {
    var line := Strip(raw);
    var s' := s.(output := s.output + [raw]);
    if line == Closing(tag) then Some(s'.(block := None))
    else if Matches(ANY_TAG, line) then None
    else Some(s')
  }

  function Opens(s: State, tag: string, line: string): Option<State> {
    if tag in s.blocks then None
    else Some(s.(block := Some(tag), blocks := s.blocks + {tag}, output := s.output + [line]))
  }

  function Directs(s: State, line: string, host: string): Option<State> {
    match Slot(line, host)
    case None => None
    case Some(slot) =>
      if slot in s.seen then None else Some(s.(seen := s.seen + {slot}, output := s.output + DirectiveImage(line)))
  }

  function TagOf(line: string): Option<string> {
    if |line| >= 2 && line == Opening(line[1..|line| - 1]) && line[1..|line| - 1] in TAGS
    then Some(line[1..|line| - 1]) else None
  }

  /** One line; `None` is the profile's refusal. */
  function Next(s: State, raw: string, host: string): Option<State> {
    var line := Strip(raw);
    if s.block.Some? then Inside(s, s.block.value, raw)
    else if TagOf(line).Some? then Opens(s, TagOf(line).value, line)
    else if line == "" then Some(s)
    else Directs(s, line, host)
  }

  function Scan(lines: seq<string>, host: string): Option<State> {
    if lines == [] then Some(START) else
    match Scan(lines[..|lines| - 1], host)
    case None => None
    case Some(s) => Next(s, lines[|lines| - 1], host)
  }

  predicate Complete(s: State, host: string) {
    && s.block.None? && {"ca", "cert", "key"} <= s.blocks
    && Exact(host) <= s.seen && {"remote", "data-ciphers"} <= s.seen
    && !("tls-auth" in s.blocks && "tls-crypt" in s.blocks)
    && ("key-direction" in s.seen ==> "tls-auth" in s.blocks)
  }

  function AdaptLines(lines: seq<string>, host: string): Option<seq<string>> {
    match Scan(lines, host)
    case None => None
    case Some(s) => if Complete(s, host) then Some(s.output) else None
  }

  function Dotted(a: nat, b: nat, c: nat, d: nat): string {
    Decimal.Print(a) + "." + Decimal.Print(b) + "." + Decimal.Print(c) + "." + Decimal.Print(d)
  }

  /** An address that `ipaddress.IPv4Address` accepts; its text form is the address itself. */
  predicate IsAddress(s: string) {
    exists a: nat, b: nat, c: nat, d: nat | a < 256 && b < 256 && c < 256 && d < 256 :: s == Dotted(a, b, c, d)
  }

  /** `adapt_profile`; a missing database host is no address. */
  function AdaptProfile(text: string, host: Option<string>): Option<string> {
    if Utf8Size(text) > PROFILE_MAX_BYTES || !Admissible(text) then None
    else if host.None? || !IsAddress(host.value) then None
    else
      match AdaptLines(SplitLines(text), host.value)
      case None => None
      case Some(output) => Some(JoinLines(output))
  }

  lemma {:induction false} ScanStuck(lines: seq<string>, host: string, i: nat)
    requires i <= |lines| && Scan(lines[..i], host).None?
    ensures Scan(lines, host).None?
    decreases |lines|
  {
    if i == |lines| {
      assert lines[..i] == lines;
    } else {
      assert lines[..|lines| - 1][..i] == lines[..i];
      ScanStuck(lines[..|lines| - 1], host, i);
    }
  }

  lemma ScanNext(lines: seq<string>, host: string, i: nat)
    requires i < |lines| && Scan(lines[..i], host).Some?
    ensures Scan(lines[..i + 1], host) == Next(Scan(lines[..i], host).value, lines[i], host)
  {
    assert lines[..i + 1][..i] == lines[..i];
  }

  /** The loop of `adapt_profile` over the stripped lines. */
  method ScanLines(lines: seq<string>, host: string) returns (r: Option<seq<string>>)
    ensures r == AdaptLines(lines, host)
  {
    hide Slot, TagOf, DirectiveImage, Strip, Matches, Exact;
    var seen: set<string>, blocks: set<string>, block: Option<string>, output: seq<string> := {}, {}, None, [];
    for i := 0 to |lines|
      invariant Scan(lines[..i], host) == Some(State(seen, blocks, block, output))
    {
      var raw := lines[i];
      var line := Strip(raw);
      ScanNext(lines, host, i);
      if block.Some? {
        output := output + [raw];
        if line == Closing(block.value) {
          block := None;
        } else if Matches(ANY_TAG, line) {
          ScanStuck(lines, host, i + 1);
          return None;
        }
        continue;
      }
      var tag := TagOf(line);
      if tag.Some? {
        block := tag;
        if tag.value in blocks {
          ScanStuck(lines, host, i + 1);
          return None;
        }
        blocks := blocks + {tag.value};
        output := output + [line];
        continue;
      }
      if line == "" {
        continue;
      }
      var slot := Slot(line, host);
      if slot.None? || slot.value in seen {
        ScanStuck(lines, host, i + 1);
        return None;
      }
      seen := seen + {slot.value};
      output := output + DirectiveImage(line);
    }
    assert lines[..|lines|] == lines;
    if !Complete(State(seen, blocks, block, output), host) {
      return None;
    }
    return Some(output);
  }
}

/** The grammar that the adapter accepts: blank lines, directives and closed blocks, each at most once. */
module VpnGrammar {
  import opened Basics
  import opened Regexes
  import opened VpnProfile

  datatype Item = Blank(raw: string) | Directive(raw: string) | Block(tag: string, opening: string, body: seq<string>, closing: string)

  datatype Mark = Nothing | SlotMark(slot: string) | TagMark(tag: string)

  predicate NoTag(raw: string) {
    !Matches(ANY_TAG, Strip(raw))
  }

  /** A body line may look like anything but a tag, except the closing tag that ends the block. */
  predicate ShapedBlock(tag: string, opening: string, body: seq<string>) {
    tag in TAGS && Strip(opening) == Opening(tag) && forall k :: 0 <= k < |body| ==> NoTag(body[k])
  }

  predicate Shaped(item: Item, host: string) {
    match item
    case Blank(raw) => Strip(raw) == ""
    case Directive(raw) => Strip(raw) != "" && TagOf(Strip(raw)).None? && Slot(Strip(raw), host).Some?
    case Block(tag, opening, body, closing) => ShapedBlock(tag, opening, body) && Strip(closing) == Closing(tag)
  }

  /** What may occur only once. */
  function MarkOf(item: Item, host: string): Mark {
    match item
    case Blank(_) => Nothing
    case Directive(raw) => (match Slot(Strip(raw), host) case Some(slot) => SlotMark(slot) case None => Nothing)
    case Block(tag, _, _, _) => TagMark(tag)
  }

  function LinesOfItem(item: Item): seq<string> {
    match item
    case Blank(raw) => [raw]
    case Directive(raw) => [raw]
    case Block(_, opening, body, closing) => [opening] + body + [closing]
  }

  /** Directives are rewritten line by line; a block is copied, its opening tag without the surrounding blanks. */
  function ImageOfItem(item: Item): seq<string> {
    match item
    case Blank(_) => []
    case Directive(raw) => DirectiveImage(Strip(raw))
    case Block(tag, _, body, closing) => [Opening(tag)] + body + [closing]
  }

  function LinesOf(items: seq<Item>): seq<string> {
    if items == [] then [] else LinesOf(items[..|items| - 1]) + LinesOfItem(items[|items| - 1])
  }

  function Image(items: seq<Item>): seq<string> {
    if items == [] then [] else Image(items[..|items| - 1]) + ImageOfItem(items[|items| - 1])
  }

  ghost predicate Marked(items: seq<Item>, host: string, mark: Mark) {
    exists i :: 0 <= i < |items| && MarkOf(items[i], host) == mark
  }

  ghost predicate AtMostOnce(items: seq<Item>, host: string) {
    forall i, j :: 0 <= i < j < |items| && MarkOf(items[i], host) != Nothing ==> MarkOf(items[i], host) != MarkOf(items[j], host)
  }

  ghost predicate AllShaped(items: seq<Item>, host: string) {
    forall i :: 0 <= i < |items| ==> Shaped(items[i], host)
  }

  /** The blocks and directives that must occur, and those that exclude or need each other. */
  ghost predicate Demands(items: seq<Item>, host: string) {
    && Marked(items, host, TagMark("ca")) && Marked(items, host, TagMark("cert")) && Marked(items, host, TagMark("key"))
    && (forall line :: line in Exact(host) ==> Marked(items, host, SlotMark(line)))
    && Marked(items, host, SlotMark("remote")) && Marked(items, host, SlotMark("data-ciphers"))
    && !(Marked(items, host, TagMark("tls-auth")) && Marked(items, host, TagMark("tls-crypt")))
    && (Marked(items, host, SlotMark("key-direction")) ==> Marked(items, host, TagMark("tls-auth")))
  }

  ghost predicate Profile(items: seq<Item>, host: string) {
    AllShaped(items, host) && AtMostOnce(items, host) && Demands(items, host)
  }

  // ---- The machine reads the grammar ----------------------------------------------------------------------------

  /** A block whose closing tag has not come yet. */
  datatype Pending = Pending(tag: string, opening: string, body: seq<string>)

  function PendingLines(pending: Option<Pending>): seq<string> {
    match pending
    case None => []
    case Some(p) => [p.opening] + p.body
  }

  function PendingImage(pending: Option<Pending>): seq<string> {
    match pending
    case None => []
    case Some(p) => [Opening(p.tag)] + p.body
  }

  ghost predicate SeenAre(seen: set<string>, items: seq<Item>, host: string) {
    forall slot :: slot in seen <==> Marked(items, host, SlotMark(slot))
  }

  ghost predicate BlocksAre(blocks: set<string>, items: seq<Item>, open: Option<string>, host: string) {
    forall tag :: tag in blocks <==> Marked(items, host, TagMark(tag)) || open == Some(tag)
  }

  /** The state after exactly these items and the pending block. */
  ghost predicate Reads(s: State, items: seq<Item>, pending: Option<Pending>, host: string) {
    && AllShaped(items, host) && AtMostOnce(items, host)
    && (pending.Some? ==>
          && ShapedBlock(pending.value.tag, pending.value.opening, pending.value.body)
          && !Marked(items, host, TagMark(pending.value.tag)))
    && s.block == (if pending.Some? then Some(pending.value.tag) else None)
    && SeenAre(s.seen, items, host) && BlocksAre(s.blocks, items, s.block, host)
    && s.output == Image(items) + PendingImage(pending)
  }

  lemma MarkedGrows(items: seq<Item>, item: Item, host: string, mark: Mark)
    ensures Marked(items + [item], host, mark) <==> Marked(items, host, mark) || MarkOf(item, host) == mark
  {
    hide MarkOf;
    var longer := items + [item];
    if i :| 0 <= i < |items| && MarkOf(items[i], host) == mark {
      assert longer[i] == items[i];
    }
    assert longer[|items|] == item;
  }

  lemma SeenGrow(seen: set<string>, items: seq<Item>, item: Item, host: string)
    requires SeenAre(seen, items, host)
    ensures SeenAre(if MarkOf(item, host).SlotMark? then seen + {MarkOf(item, host).slot} else seen, items + [item], host)
  {
    hide MarkOf, Marked;
    forall slot ensures Marked(items + [item], host, SlotMark(slot)) <==>
      slot in seen || MarkOf(item, host) == SlotMark(slot)
    {
      MarkedGrows(items, item, host, SlotMark(slot));
    }
  }

  lemma BlocksGrow(blocks: set<string>, items: seq<Item>, item: Item, open: Option<string>, host: string)
    requires BlocksAre(blocks, items, open, host)
    requires if MarkOf(item, host).TagMark? then open == Some(MarkOf(item, host).tag) else open == None
    ensures BlocksAre(blocks, items + [item], None, host)
  {
    hide MarkOf, Marked;
    forall tag ensures Marked(items + [item], host, TagMark(tag)) <==> tag in blocks {
      MarkedGrows(items, item, host, TagMark(tag));
    }
  }

  lemma OnceGrows(items: seq<Item>, item: Item, host: string)
    ensures AtMostOnce(items + [item], host) <==>
      AtMostOnce(items, host) && (MarkOf(item, host) == Nothing || !Marked(items, host, MarkOf(item, host)))
  {
    hide MarkOf;
    var longer := items + [item];
    assert longer[|items|] == item;
    assert forall i :: 0 <= i < |items| ==> longer[i] == items[i];
  }

  lemma ShapedGrows(items: seq<Item>, item: Item, host: string)
    ensures AllShaped(items + [item], host) <==> AllShaped(items, host) && Shaped(item, host)
  {
    hide Shaped;
    var longer := items + [item];
    assert longer[|items|] == item;
    assert forall i :: 0 <= i < |items| ==> longer[i] == items[i];
  }

  lemma TextsGrow(items: seq<Item>, item: Item)
    ensures LinesOf(items + [item]) == LinesOf(items) + LinesOfItem(item)
    ensures Image(items + [item]) == Image(items) + ImageOfItem(item)
  {
    assert (items + [item])[..|items|] == items;
  }

  lemma TagIsOpening(line: string, tag: string)
    ensures TagOf(line) == Some(tag) <==> tag in TAGS && line == Opening(tag)
  {
    if line == Opening(tag) {
      assert line[1..|line| - 1] == tag;
    }
  }

  lemma LettersAndDash(c: char)
    requires 'a' <= c <= 'z' || c == '-'
    ensures InClass(c, [Range('a', 'z'), Range('-', '-')])
  {
    var letters := [Range('a', 'z'), Range('-', '-')];
    assert if c == '-' then InRange(c, letters[1]) else InRange(c, letters[0]);
  }

  lemma TagLetters(tag: string)
    requires tag in TAGS
    ensures forall i :: 0 <= i < |tag| ==> 'a' <= tag[i] <= 'z' || tag[i] == '-'
  {
  }

  lemma NameMatches(tag: string)
    requires tag in TAGS
    ensures Matches(TAG_NAME, tag)
  {
    hide InClass;
    TagLetters(tag);
    forall i | 0 <= i < |tag| ensures InClass(tag[i], [Range('a', 'z'), Range('-', '-')]) {
      LettersAndDash(tag[i]);
    }
    RepeatedClass([Range('a', 'z'), Range('-', '-')], 1, None, tag);
  }

  lemma SlashMatches()
    ensures Matches(SLASH, "/")
  {
    assert "/"[..1] == "/" && "/"[1..] == "";
    assert Repeats(Text("/"), 0, Some(0), "");
  }

  lemma ClosingIsTag(tag: string)
    requires tag in TAGS
    ensures Matches(ANY_TAG, Closing(tag))
  {
    hide Matches, Optional;
    NameMatches(tag);
    SlashMatches();
    Itself("<");
    Itself(">");
    MatchesThen(TAG_NAME, Text(">"), tag, ">");
    MatchesThen(SLASH, Then(TAG_NAME, Text(">")), "/", tag + ">");
    MatchesThen(Text("<"), Then(SLASH, Then(TAG_NAME, Text(">"))), "<", "/" + (tag + ">"));
    assert "<" + ("/" + (tag + ">")) == Closing(tag);
  }

  lemma StepBlank(s: State, items: seq<Item>, raw: string, host: string)
    requires Reads(s, items, None, host) && Strip(raw) == ""
    ensures Next(s, raw, host) == Some(s) && Reads(s, items + [Blank(raw)], None, host)
  {
    hide Slot, Strip, AllShaped, AtMostOnce, Marked, Image;
    var item := Blank(raw);
    OnceGrows(items, item, host);
    ShapedGrows(items, item, host);
    TextsGrow(items, item);
    SeenGrow(s.seen, items, item, host);
    BlocksGrow(s.blocks, items, item, None, host);
  }

  lemma StepDirective(s: State, items: seq<Item>, raw: string, host: string)
    requires Reads(s, items, None, host) && Strip(raw) != "" && TagOf(Strip(raw)).None?
    ensures var slot := Slot(Strip(raw), host); var next := Next(s, raw, host);
      && (next.Some? <==> slot.Some? && !Marked(items, host, SlotMark(slot.value)))
      && (next.Some? ==> Reads(next.value, items + [Directive(raw)], None, host))
  {
    hide Slot, Strip, AllShaped, AtMostOnce, Marked, Image, TagOf, DirectiveImage, BlocksAre, SeenAre;
    var item, slot := Directive(raw), Slot(Strip(raw), host);
    if slot.Some? && !Marked(items, host, SlotMark(slot.value)) {
      assert MarkOf(item, host) == SlotMark(slot.value);
      OnceGrows(items, item, host);
      ShapedGrows(items, item, host);
      TextsGrow(items, item);
      SeenGrow(s.seen, items, item, host);
      BlocksGrow(s.blocks, items, item, None, host);
    }
    if slot.Some? {
      SeenHas(s.seen, items, host, slot.value);
    }
  }

  lemma SeenHas(seen: set<string>, items: seq<Item>, host: string, slot: string)
    requires SeenAre(seen, items, host)
    ensures slot in seen <==> Marked(items, host, SlotMark(slot))
  {
    hide Marked;
  }

  lemma StepOpen(s: State, items: seq<Item>, tag: string, raw: string, host: string)
    requires Reads(s, items, None, host) && tag in TAGS && Strip(raw) == Opening(tag)
    ensures var next := Next(s, raw, host);
      && (next.Some? <==> !Marked(items, host, TagMark(tag)))
      && (next.Some? ==> Reads(next.value, items, Some(Pending(tag, raw, [])), host))
  {
    hide Slot, Strip, AllShaped, AtMostOnce, Marked, Image, TagOf, DirectiveImage;
    TagIsOpening(Strip(raw), tag);
  }

  lemma StepBody(s: State, items: seq<Item>, p: Pending, raw: string, host: string)
    requires Reads(s, items, Some(p), host) && Strip(raw) != Closing(p.tag)
    ensures var next := Next(s, raw, host);
      && (next.Some? <==> NoTag(raw))
      && (next.Some? ==> Reads(next.value, items, Some(p.(body := p.body + [raw])), host))
  {
    hide Slot, Strip, AllShaped, AtMostOnce, Marked, Image, TagOf, DirectiveImage, Matches;
  }

  lemma StepClose(s: State, items: seq<Item>, p: Pending, raw: string, host: string)
    requires Reads(s, items, Some(p), host) && Strip(raw) == Closing(p.tag)
    ensures var next := Next(s, raw, host);
      next.Some? && Reads(next.value, items + [Block(p.tag, p.opening, p.body, raw)], None, host)
  {
    hide Slot, Strip, AllShaped, AtMostOnce, Marked, Image, TagOf, DirectiveImage, Matches, ShapedBlock;
    var item := Block(p.tag, p.opening, p.body, raw);
    OnceGrows(items, item, host);
    ShapedGrows(items, item, host);
    TextsGrow(items, item);
    SeenGrow(s.seen, items, item, host);
    BlocksGrow(s.blocks, items, item, s.block, host);
  }

  lemma NextReads(s: State, items: seq<Item>, pending: Option<Pending>, raw: string, host: string)
    returns (items': seq<Item>, pending': Option<Pending>)
    requires Reads(s, items, pending, host) && Next(s, raw, host).Some?
    ensures Reads(Next(s, raw, host).value, items', pending', host)
    ensures LinesOf(items') + PendingLines(pending') == LinesOf(items) + PendingLines(pending) + [raw]
  {
    hide Slot, Strip, TagOf, Reads, Next, LinesOf, Marked, Image, NoTag, Closing;
    var line := Strip(raw);
    items', pending' := items, None;
    if pending.Some? {
      var p := pending.value;
      if line == Closing(p.tag) {
        StepClose(s, items, p, raw, host);
        TextsGrow(items, Block(p.tag, p.opening, p.body, raw));
        items' := items + [Block(p.tag, p.opening, p.body, raw)];
      } else {
        StepBody(s, items, p, raw, host);
        pending' := Some(p.(body := p.body + [raw]));
      }
    } else if TagOf(line).Some? {
      TagIsOpening(line, TagOf(line).value);
      StepOpen(s, items, TagOf(line).value, raw, host);
      pending' := Some(Pending(TagOf(line).value, raw, []));
    } else if line == "" {
      StepBlank(s, items, raw, host);
      TextsGrow(items, Blank(raw));
      items' := items + [Blank(raw)];
    } else {
      StepDirective(s, items, raw, host);
      TextsGrow(items, Directive(raw));
      items' := items + [Directive(raw)];
    }
  }

  /** The machine never leaves the grammar: what it has read splits into items and a pending block. */
  lemma {:induction false} ScanReads(lines: seq<string>, host: string) returns (items: seq<Item>, pending: Option<Pending>)
    requires Scan(lines, host).Some?
    ensures lines == LinesOf(items) + PendingLines(pending)
    ensures Reads(Scan(lines, host).value, items, pending, host)
  {
    hide Reads, Next, LinesOf, PendingLines;
    if lines == [] {
      items, pending := [], None;
      StartReads(host);
      StartScans(host);
    } else {
      var front, raw := lines[..|lines| - 1], lines[|lines| - 1];
      assert lines == front + [raw];
      items, pending := ScanReads(front, host);
      items, pending := NextReads(Scan(front, host).value, items, pending, raw, host);
    }
  }

  lemma StartReads(host: string)
    ensures Reads(START, [], None, host)
  {
  }

  lemma ScanAppend(lines: seq<string>, raw: string, host: string)
    requires Scan(lines, host).Some?
    ensures Scan(lines + [raw], host) == Next(Scan(lines, host).value, raw, host)
  {
    assert (lines + [raw])[..|lines|] == lines;
  }

  ghost predicate Scanned(items: seq<Item>, pending: Option<Pending>, host: string) {
    var scan := Scan(LinesOf(items) + PendingLines(pending), host);
    scan.Some? && Reads(scan.value, items, pending, host)
  }

  lemma OpeningScanned(items: seq<Item>, tag: string, opening: string, host: string)
    requires Scanned(items, None, host) && !Marked(items, host, TagMark(tag))
    requires tag in TAGS && Strip(opening) == Opening(tag)
    ensures Scanned(items, Some(Pending(tag, opening, [])), host)
  {
    hide Strip, Marked, Reads, Next, Scan, LinesOf, Opening;
    var lines := LinesOf(items);
    assert lines + PendingLines(None) == lines;
    ScanAppend(lines, opening, host);
    StepOpen(Scan(lines, host).value, items, tag, opening, host);
    assert PendingLines(Some(Pending(tag, opening, []))) == [opening];
  }

  lemma BodyLineScanned(items: seq<Item>, q: Pending, raw: string, host: string)
    requires Scanned(items, Some(q), host) && NoTag(raw) && Strip(raw) != Closing(q.tag)
    ensures Scanned(items, Some(q.(body := q.body + [raw])), host)
  {
    hide Strip, Reads, Next, Scan, LinesOf, NoTag, Closing;
    var before := LinesOf(items) + PendingLines(Some(q));
    assert LinesOf(items) + PendingLines(Some(q.(body := q.body + [raw]))) == before + [raw];
    ScanAppend(before, raw, host);
    StepBody(Scan(before, host).value, items, q, raw, host);
  }

  lemma {:induction false} BodyScanned(items: seq<Item>, p: Pending, host: string)
    requires Scanned(items, None, host) && !Marked(items, host, TagMark(p.tag))
    requires ShapedBlock(p.tag, p.opening, p.body)
    ensures Scanned(items, Some(p), host)
    decreases |p.body|
  {
    hide Strip, Marked, Scanned, Matches, Closing, Opening;
    if p.body == [] {
      OpeningScanned(items, p.tag, p.opening, host);
    } else {
      var n := |p.body| - 1;
      var q := p.(body := p.body[..n]);
      BodyScanned(items, q, host);
      assert NoTag(p.body[n]);
      ClosingIsTag(p.tag);
      BodyLineScanned(items, q, p.body[n], host);
      assert q.(body := q.body + [p.body[n]]) == p;
    }
  }

  /** Whatever the grammar derives, the machine accepts so far. */
  lemma {:induction false} ItemsScanned(items: seq<Item>, host: string)
    requires AllShaped(items, host) && AtMostOnce(items, host)
    ensures Scanned(items, None, host)
  {
    hide Slot, Strip, AllShaped, AtMostOnce, Marked, Image, TagOf, DirectiveImage, Reads, Next, Scan, Matches, LinesOf, ShapedBlock;
    if items == [] {
      StartReads(host);
      StartScans(host);
      return;
    }
    var front, item := items[..|items| - 1], items[|items| - 1];
    assert items == front + [item];
    ShapedGrows(front, item, host);
    OnceGrows(front, item, host);
    ItemsScanned(front, host);
    TextsGrow(front, item);
    var lines := LinesOf(front);
    assert lines + PendingLines(None) == lines && LinesOf(items) + PendingLines(None) == LinesOf(items);
    match item
    case Blank(raw) =>
      ScanAppend(lines, raw, host);
      StepBlank(Scan(lines, host).value, front, raw, host);
    case Directive(raw) =>
      ScanAppend(lines, raw, host);
      StepDirective(Scan(lines, host).value, front, raw, host);
    case Block(tag, opening, body, closing) =>
      var p := Pending(tag, opening, body);
      BodyScanned(front, p, host);
      var before := lines + PendingLines(Some(p));
      assert LinesOf(items) == before + [closing];
      ScanAppend(before, closing, host);
      StepClose(Scan(before, host).value, front, p, closing, host);
  }

  lemma StartScans(host: string)
    ensures LinesOf([]) + PendingLines(None) == [] && Scan([], host) == Some(START)
  {
  }

  lemma CompleteDemands(s: State, items: seq<Item>, pending: Option<Pending>, host: string)
    requires Reads(s, items, pending, host)
    ensures Complete(s, host) <==> pending.None? && Demands(items, host)
  {
    hide Marked, AllShaped, AtMostOnce, Image, ShapedBlock, Exact;
    if pending.None? {
      assert Exact(host) <= s.seen <==> forall line :: line in Exact(host) ==> Marked(items, host, SlotMark(line));
    }
  }

  /** The lines are accepted exactly when they are a profile of the grammar, and what is written is the
      order-preserving image of its items. */
  lemma LinesAreGrammar(lines: seq<string>, host: string)
    ensures AdaptLines(lines, host).Some? <==> exists items :: LinesOf(items) == lines && Profile(items, host)
    ensures forall items :: LinesOf(items) == lines && Profile(items, host) ==> AdaptLines(lines, host) == Some(Image(items))
  {
    hide Scan, Complete, Demands, AllShaped, AtMostOnce, LinesOf, Image, SeenAre, BlocksAre;
    if AdaptLines(lines, host).Some? {
      var items, pending := ScanReads(lines, host);
      CompleteDemands(Scan(lines, host).value, items, pending, host);
      assert LinesOf(items) == lines && Profile(items, host);
    }
    forall items | LinesOf(items) == lines && Profile(items, host) ensures AdaptLines(lines, host) == Some(Image(items)) {
      ItemsScanned(items, host);
      assert LinesOf(items) + PendingLines(None) == lines;
      assert Image(items) + PendingImage(None) == Image(items);
      CompleteDemands(Scan(lines, host).value, items, None, host);
    }
  }
}

/** From the grammar of lines to texts, and what a `remote` line says. */
module VpnTexts {
  import opened Basics
  import opened Regexes
  import opened VpnProfile
  import opened VpnGrammar
  import Decimal

  // ---- Lines and texts ----------------------------------------------------------------------------------------

  predicate OneLine(line: string) {
    '\n' !in line
  }

  predicate AllOneLine(lines: seq<string>) {
    forall i :: 0 <= i < |lines| ==> OneLine(lines[i])
  }

  lemma {:induction false} SplitsAreLines(text: string)
    ensures AllOneLine(SplitLines(text))
  {
    if text != "" {
      SplitsAreLines(text[1..]);
    }
  }

  lemma {:induction false} SplitFirst(line: string, rest: string)
    requires OneLine(line)
    ensures SplitLines(line + "\n" + rest) == [line] + SplitLines(rest)
  {
    var text := line + "\n" + rest;
    if line == "" {
      assert text[1..] == rest;
    } else {
      SplitFirst(line[1..], rest);
      assert text[1..] == line[1..] + "\n" + rest;
      assert [line[0]] + line[1..] == line;
    }
  }

  lemma JoinCons(line: string, rest: seq<string>)
    ensures JoinLines([line] + rest) == line + "\n" + if rest == [] then "" else JoinLines(rest)
  {
    assert ([line] + rest)[1..] == rest;
    if rest == [] {
      assert [line] + rest == [line];
      assert line + "\n" + "" == line + "\n";
    }
  }

  /** What is written splits back into exactly the lines it was joined from. */
  lemma {:induction false} SplitJoin(lines: seq<string>)
    requires lines != [] && AllOneLine(lines)
    ensures SplitLines(JoinLines(lines)) == lines
  {
    hide SplitLines, JoinLines, OneLine;
    var first, rest := lines[0], lines[1..];
    assert lines == [first] + rest;
    JoinCons(first, rest);
    if rest == [] {
      SplitFirst(first, "");
      NothingToSplit();
    } else {
      SplitJoin(rest);
      SplitFirst(first, JoinLines(rest));
    }
  }

  lemma NothingToSplit()
    ensures SplitLines("") == []
  {
  }

  /** A text is its lines joined again, up to a missing last newline. */
  lemma {:induction false} JoinSplit(text: string)
    requires text != ""
    ensures JoinLines(SplitLines(text)) == if text[|text| - 1] == '\n' then text else text + "\n"
  {
    var rest := SplitLines(text[1..]);
    if |text| == 1 {
      assert rest == [];
    } else {
      JoinSplit(text[1..]);
      JoinHead(text[0], rest);
      assert text == [text[0]] + text[1..];
    }
  }

  lemma JoinHead(c: char, rest: seq<string>)
    requires rest != []
    ensures JoinLines([""] + rest) == "\n" + JoinLines(rest)
    ensures JoinLines([[c] + rest[0]] + rest[1..]) == [c] + JoinLines(rest)
  {
    assert ([""] + rest)[1..] == rest;
    var longer := [[c] + rest[0]] + rest[1..];
    assert longer[1..] == rest[1..];
  }

  lemma {:induction false} StripLeftKeeps(s: string)
    requires OneLine(s)
    ensures OneLine(StripLeft(s))
  {
    if s != "" && VpnProfile.IsBlank(s[0]) {
      StripLeftKeeps(s[1..]);
    }
  }

  lemma {:induction false} StripRightKeeps(s: string)
    requires OneLine(s)
    ensures OneLine(StripRight(s))
  {
    if s != "" && VpnProfile.IsBlank(s[|s| - 1]) {
      StripRightKeeps(s[..|s| - 1]);
    }
  }

  lemma StripKeeps(s: string)
    requires OneLine(s)
    ensures OneLine(Strip(s))
  {
    StripLeftKeeps(s);
    StripRightKeeps(StripLeft(s));
  }

  lemma AllOneLineAppend(a: seq<string>, b: seq<string>)
    ensures AllOneLine(a + b) <==> AllOneLine(a) && AllOneLine(b)
  {
    hide OneLine;
    assert forall i :: 0 <= i < |a| ==> (a + b)[i] == a[i];
    assert forall i :: 0 <= i < |b| ==> (a + b)[|a| + i] == b[i];
  }

  lemma ItemImageLines(item: Item, host: string)
    requires AllOneLine(LinesOfItem(item)) && Shaped(item, host)
    ensures AllOneLine(ImageOfItem(item))
  {
    hide Slot, Strip, TagOf, NoTag;
    match item
    case Blank(_) =>
    case Directive(raw) =>
      assert LinesOfItem(item)[0] == raw;
      StripKeeps(raw);
    case Block(tag, opening, body, closing) =>
      AllOneLineAppend([opening] + body, [closing]);
      AllOneLineAppend([opening], body);
      assert [opening][0] == opening;
      StripKeeps(opening);
      AllOneLineAppend([Opening(tag)] + body, [closing]);
      AllOneLineAppend([Opening(tag)], body);
  }

  lemma ImageLinesStep(front: seq<Item>, item: Item, host: string)
    requires AllOneLine(LinesOf(front + [item])) && Shaped(item, host)
    ensures AllOneLine(LinesOf(front)) && (AllOneLine(Image(front)) ==> AllOneLine(Image(front + [item])))
  {
    hide AllOneLine, LinesOfItem, ImageOfItem, Shaped, LinesOf, Image;
    TextsGrow(front, item);
    AllOneLineAppend(LinesOf(front), LinesOfItem(item));
    ItemImageLines(item, host);
    AllOneLineAppend(Image(front), ImageOfItem(item));
  }

  lemma NoLines()
    ensures AllOneLine(Image([]))
  {
  }

  lemma {:induction false} ImageLines(items: seq<Item>, host: string)
    requires AllOneLine(LinesOf(items)) && AllShaped(items, host)
    ensures AllOneLine(Image(items))
  {
    hide AllOneLine, OneLine, Shaped, AllShaped, LinesOf, Image;
    if items == [] {
      NoLines();
    } else {
      var front, item := items[..|items| - 1], items[|items| - 1];
      assert items == front + [item];
      ShapedGrows(front, item, host);
      ImageLinesStep(front, item, host);
      ImageLines(front, host);
    }
  }

  lemma {:induction false} BlockInImage(items: seq<Item>, host: string, tag: string)
    requires Marked(items, host, TagMark(tag))
    ensures Image(items) != []
  {
    hide ImageOfItem, MarkOf;
    var front, item := items[..|items| - 1], items[|items| - 1];
    if MarkOf(item, host) == TagMark(tag) {
      TagItemImage(item, host, tag);
    } else {
      var i :| 0 <= i < |items| && MarkOf(items[i], host) == TagMark(tag);
      assert front[i] == items[i];
      BlockInImage(front, host, tag);
    }
  }

  lemma TagItemImage(item: Item, host: string, tag: string)
    requires MarkOf(item, host) == TagMark(tag)
    ensures ImageOfItem(item) != []
  {
  }

  lemma OutputLines(text: string, items: seq<Item>, host: string)
    requires LinesOf(items) == SplitLines(text) && Profile(items, host)
    ensures SplitLines(JoinLines(Image(items))) == Image(items)
  {
    hide SplitLines, JoinLines, LinesOf, Image, AllShaped, AtMostOnce, Marked, Exact, AllOneLine;
    SplitsAreLines(text);
    ImageLines(items, host);
    BlockInImage(items, host, "ca");
    SplitJoin(Image(items));
  }

  /** The adapter accepts exactly the small enough admissible texts that are, line by line, a profile for an
      IPv4 database host; its output is the text of the order-preserving image. */
  lemma TextsAreGrammar(text: string, host: Option<string>)
    ensures AdaptProfile(text, host).Some? <==>
      && |Utf8(text)| <= 262_144 && (forall i :: 0 <= i < |text| ==> IsPlain(text[i]))
      && host.Some? && IsAddress(host.value)
      && exists items :: LinesOf(items) == SplitLines(text) && Profile(items, host.value)
    ensures AdaptProfile(text, host).Some? ==>
      forall items :: LinesOf(items) == SplitLines(text) && Profile(items, host.value) ==>
        && AdaptProfile(text, host) == Some(JoinLines(Image(items)))
        && SplitLines(AdaptProfile(text, host).value) == Image(items)
  {
    hide AdaptLines, SplitLines, JoinLines, Utf8Size, Utf8, IsPlain, Admissible, IsAddress, LinesOf, Image, Profile;
    Utf8SizeMeans(text);
    AdmissibleMeans(text);
    if host.Some? {
      LinesAreGrammar(SplitLines(text), host.value);
      forall items | LinesOf(items) == SplitLines(text) && Profile(items, host.value)
        ensures SplitLines(JoinLines(Image(items))) == Image(items)
      {
        OutputLines(text, items, host.value);
      }
    }
  }

  // ---- Sizes and characters ---------------------------------------------------------------------------------------

  /** The bytes of one character, after RFC 3629, section 3. */
  function Utf8Bytes(c: char): seq<nat> {
    var n := c as int;
    if n < 0x80 then [n]
    else if n < 0x800 then [0xc0 + n / 64, 0x80 + n % 64]
    else if n < 0x1_0000 then [0xe0 + n / 4096, 0x80 + n / 64 % 64, 0x80 + n % 64]
    else [0xf0 + n / 262_144, 0x80 + n / 4096 % 64, 0x80 + n / 64 % 64, 0x80 + n % 64]
  }

  lemma Utf8BytesRead(c: char)
    ensures var b, n := Utf8Bytes(c), c as int;
      && 1 <= |b| <= 4 && (forall i :: 1 <= i < |b| ==> 0x80 <= b[i] < 0xc0)
      && match |b|
         case 1 => b[0] == n < 0x80
         case 2 => 0xc0 <= b[0] < 0xe0 && (b[0] - 0xc0) * 64 + (b[1] - 0x80) == n
         case 3 => 0xe0 <= b[0] < 0xf0 && ((b[0] - 0xe0) * 64 + (b[1] - 0x80)) * 64 + (b[2] - 0x80) == n
         case _ => 0xf0 <= b[0] < 0xf8 && (((b[0] - 0xf0) * 64 + (b[1] - 0x80)) * 64 + (b[2] - 0x80)) * 64 + (b[3] - 0x80) == n
  {
    var n := c as int;
    assert n / 64 == n / 4096 * 64 + n / 64 % 64;
    assert n / 4096 == n / 262_144 * 64 + n / 4096 % 64;
  }

  function Utf8(text: string): seq<nat> {
    if text == "" then [] else Utf8(text[..|text| - 1]) + Utf8Bytes(text[|text| - 1])
  }

  lemma {:induction false} Utf8SizeMeans(text: string)
    ensures Utf8Size(text) == |Utf8(text)|
  {
    if text != "" {
      Utf8SizeMeans(text[..|text| - 1]);
    }
  }

  /** Tab, newline, printable ASCII, or a character outside the basic plane. */
  predicate IsPlain(c: char) {
    c == '\t' || c == '\n' || ' ' <= c <= '~' || c as int > 0xffff
  }

  lemma AdmissibleMeans(text: string)
    ensures Admissible(text) <==> forall i :: 0 <= i < |text| ==> IsPlain(text[i])
  {
    forall c: char ensures Forbidden(c) <==> !IsPlain(c) {
    }
  }

  // ---- Addresses --------------------------------------------------------------------------------------------------

  /** A number up to 255 in decimal, without leading zeros. */
  predicate IsOctet(p: string) {
    1 <= |p| <= 3 && Decimal.AllDigits(p) && (p[0] == '0' ==> p == "0") && Decimal.Parse(p) <= 255
  }

  lemma OctetMeans(p: string)
    ensures IsOctet(p) <==> exists n: nat :: n <= 255 && p == Decimal.Print(n)
  {
    hide Decimal.Print, Decimal.Parse;
    if IsOctet(p) {
      OctetPrints(p);
    }
    if n: nat :| n <= 255 && p == Decimal.Print(n) {
      assert Decimal.Power10(3) == 1000;
      Decimal.PrintLength(n, 3);
      Decimal.ParsePrint(n);
      OctetLeads(n);
    }
  }

  lemma OctetPrints(p: string)
    requires IsOctet(p)
    ensures Decimal.Print(Decimal.Parse(p)) == p
  {
    if p == "0" {
      assert Decimal.Parse(p[..0]) == 0;
    } else {
      PrintParse(p);
    }
  }

  lemma OctetLeads(n: nat)
    ensures Decimal.Print(n)[0] == '0' ==> Decimal.Print(n) == "0"
  {
    if n > 0 {
      PrintLeads(n);
    }
  }

  lemma PrintedOctet(n: nat)
    requires n <= 255
    ensures IsOctet(Decimal.Print(n))
  {
    hide Decimal.Print;
    OctetMeans(Decimal.Print(n));
  }

  lemma AddressParts(a: nat, b: nat, c: nat, d: nat) returns (parts: seq<string>)
    requires a <= 255 && b <= 255 && c <= 255 && d <= 255
    ensures |parts| == 4 && (forall i :: 0 <= i < 4 ==> IsOctet(parts[i])) && Dotted(a, b, c, d) == Join(parts, ".")
  {
    hide IsOctet, Decimal.Print, Join;
    parts := [Decimal.Print(a), Decimal.Print(b), Decimal.Print(c), Decimal.Print(d)];
    PrintedOctet(a);
    PrintedOctet(b);
    PrintedOctet(c);
    PrintedOctet(d);
    JoinFour(parts);
  }

  lemma PartsAddress(parts: seq<string>)
    requires |parts| == 4 && forall i :: 0 <= i < 4 ==> IsOctet(parts[i])
    ensures IsAddress(Join(parts, "."))
  {
    hide IsOctet, Decimal.Print, Join;
    JoinFour(parts);
    OctetMeans(parts[0]);
    OctetMeans(parts[1]);
    OctetMeans(parts[2]);
    OctetMeans(parts[3]);
    var a: nat :| a <= 255 && parts[0] == Decimal.Print(a);
    var b: nat :| b <= 255 && parts[1] == Decimal.Print(b);
    var c: nat :| c <= 255 && parts[2] == Decimal.Print(c);
    var d: nat :| d <= 255 && parts[3] == Decimal.Print(d);
    assert Join(parts, ".") == Dotted(a, b, c, d);
  }

  /** An address is four such numbers with dots between them. */
  lemma AddressMeans(s: string)
    ensures IsAddress(s) <==> exists parts: seq<string> ::
      |parts| == 4 && (forall i :: 0 <= i < 4 ==> IsOctet(parts[i])) && s == Join(parts, ".")
  {
    hide IsOctet, Dotted, Join;
    if IsAddress(s) {
      var a: nat, b: nat, c: nat, d: nat :| a < 256 && b < 256 && c < 256 && d < 256 && s == Dotted(a, b, c, d);
      var parts := AddressParts(a, b, c, d);
    }
    if parts: seq<string> :| |parts| == 4 && (forall i :: 0 <= i < 4 ==> IsOctet(parts[i])) && s == Join(parts, ".") {
      PartsAddress(parts);
    }
  }

  lemma JoinFour(parts: seq<string>)
    requires |parts| == 4
    ensures Join(parts, ".") == parts[0] + "." + parts[1] + "." + parts[2] + "." + parts[3]
  {
    assert parts[1..][1..][1..] == [parts[3]];
    assert Join(parts[1..][1..], ".") == parts[2] + "." + parts[3];
    assert Join(parts[1..], ".") == parts[1] + "." + (parts[2] + "." + parts[3]);
    assert parts[0] + "." + (parts[1] + "." + (parts[2] + "." + parts[3]))
        == parts[0] + "." + parts[1] + "." + parts[2] + "." + parts[3];
  }

  // ---- The remote line -------------------------------------------------------------------------------------------

  /** A host name or dotted address: at most 253 letters, digits, dots and dashes, alphanumeric at both ends. */
  predicate IsHost(h: string) {
    && 1 <= |h| <= 253 && AllInClass(h, HOST_CHARS)
    && InClass(h[0], ALPHANUMERIC) && InClass(h[|h| - 1], ALPHANUMERIC)
  }

  function RemoteLine(host: string, port: nat): string {
    "remote " + host + " " + Decimal.Print(port)
  }

  lemma Widens(c: char)
    requires InClass(c, ALPHANUMERIC)
    ensures InClass(c, HOST_CHARS)
  {
    var i :| 0 <= i < |ALPHANUMERIC| && InRange(c, ALPHANUMERIC[i]);
    assert HOST_CHARS[i] == ALPHANUMERIC[i];
  }

  lemma DigitClass(c: char)
    ensures InClass(c, [Range('0', '9')]) <==> Decimal.IsDigit(c)
    ensures InClass(c, [Range('1', '9')]) <==> Decimal.IsDigit(c) && c != '0'
    ensures Decimal.IsDigit(c) ==> InClass(c, ALPHANUMERIC) && InClass(c, HOST_CHARS)
  {
    assert [Range('0', '9')][0] == Range('0', '9') && [Range('1', '9')][0] == Range('1', '9');
    if Decimal.IsDigit(c) {
      assert InRange(c, ALPHANUMERIC[2]);
      Widens(c);
    }
  }

  lemma DigitsClass(s: string)
    ensures AllInClass(s, [Range('0', '9')]) <==> Decimal.AllDigits(s)
  {
    hide InClass;
    forall c: char ensures InClass(c, [Range('0', '9')]) <==> Decimal.IsDigit(c) {
      DigitClass(c);
    }
  }

  lemma HostMeans(h: string)
    ensures Matches(HOST, h) <==> IsHost(h)
  {
    hide InClass;
    var middle, end := Times(Chars(HOST_CHARS, false), 0, Some(251)), Chars(ALPHANUMERIC, false);
    if |h| >= 1 {
      var tail := h[1..];
      TailMeans(tail);
      OptionalMeans(Then(middle, end), tail);
      assert forall k :: 0 <= k <= |h| && Matches(end, h[..k]) ==> k == 1;
      assert Matches(HOST, h) <==> Matches(end, h[..1]) && Matches(Optional(Then(middle, end)), tail);
      if InClass(h[0], ALPHANUMERIC) {
        Widens(h[0]);
        assert AllInClass(h, HOST_CHARS) <==> AllInClass(tail, HOST_CHARS);
      }
    }
  }

  lemma OptionalMeans(r: Regex, s: string)
    ensures Matches(Optional(r), s) <==> s == "" || Matches(r, s)
  {
    if s != "" {
      assert s[..|s|] == s && s[|s|..] == "";
      forall k | 1 <= k <= |s| ensures Repeats(r, 0, Some(0), s[k..]) <==> k == |s| {
        NoMore(r, s[k..]);
      }
      assert Repeats(r, 0, Some(1), s) <==> exists k :: 1 <= k <= |s| && Matches(r, s[..k]) && Repeats(r, 0, Some(0), s[k..]);
    }
  }

  lemma NoMore(r: Regex, s: string)
    ensures Repeats(r, 0, Some(0), s) <==> s == ""
  {
  }

  /** What follows the first character of a host, when anything does. */
  lemma TailMeans(t: string)
    ensures Matches(Then(Times(Chars(HOST_CHARS, false), 0, Some(251)), Chars(ALPHANUMERIC, false)), t) <==>
      1 <= |t| <= 252 && AllInClass(t, HOST_CHARS) && InClass(t[|t| - 1], ALPHANUMERIC)
  {
    hide InClass;
    var middle, end := Times(Chars(HOST_CHARS, false), 0, Some(251)), Chars(ALPHANUMERIC, false);
    if |t| >= 1 {
      var n := |t| - 1;
      RepeatedClass(HOST_CHARS, 0, Some(251), t[..n]);
      assert forall k :: 0 <= k <= |t| && Matches(end, t[k..]) ==> k == n;
      assert Matches(Then(middle, end), t) <==> Matches(middle, t[..n]) && Matches(end, t[n..]);
      if InClass(t[n], ALPHANUMERIC) {
        Widens(t[n]);
        assert AllInClass(t, HOST_CHARS) <==> AllInClass(t[..n], HOST_CHARS);
      }
    }
  }

  /** One group of a dotted address, and any number of them. */
  lemma GroupMeans(s: string)
    requires Matches(Then(Times(DIGIT, 1, Some(3)), Text(".")), s)
    ensures 2 <= |s| <= 4 && AllInClass(s, HOST_CHARS) && InClass(s[0], ALPHANUMERIC)
  {
    hide InClass;
    var k :| 0 <= k <= |s| && Matches(Times(DIGIT, 1, Some(3)), s[..k]) && Matches(Text("."), s[k..]);
    RepeatedClass([Range('0', '9')], 1, Some(3), s[..k]);
    DigitsClass(s[..k]);
    forall i | 0 <= i < |s| ensures InClass(s[i], HOST_CHARS) {
      if i < k {
        assert s[..k][i] == s[i];
        DigitClass(s[i]);
      } else {
        assert s[k..][i - k] == s[i] == '.';
        DotClass();
      }
    }
    assert s[..k][0] == s[0];
    DigitClass(s[0]);
  }

  lemma DotClass()
    ensures InClass('.', HOST_CHARS)
  {
    assert HOST_CHARS[3] == Range('.', '.');
    assert InRange('.', HOST_CHARS[3]);
  }

  lemma {:induction false} GroupsMean(n: nat, s: string)
    requires Repeats(Then(Times(DIGIT, 1, Some(3)), Text(".")), n, Some(n), s)
    ensures |s| <= 4 * n && AllInClass(s, HOST_CHARS) && (n > 0 ==> s != "" && InClass(s[0], ALPHANUMERIC))
  {
    hide InClass, Matches;
    var group := Then(Times(DIGIT, 1, Some(3)), Text("."));
    if s == "" {
      if n > 0 {
        GroupMeans(s);
      }
    } else {
      var k :| 1 <= k <= |s| && Matches(group, s[..k]) && Repeats(group, Less(n), LessBound(Some(n)), s[k..]);
      GroupMeans(s[..k]);
      GroupsMean(n - 1, s[k..]);
      forall i | 0 <= i < |s| ensures InClass(s[i], HOST_CHARS) {
        assert s[i] == if i < k then s[..k][i] else s[k..][i - k];
      }
      assert s[..k][0] == s[0];
    }
  }

  lemma DottedSplits(h: string) returns (k: nat)
    requires Matches(DOTTED, h)
    ensures k <= |h| && Repeats(Then(Times(DIGIT, 1, Some(3)), Text(".")), 3, Some(3), h[..k])
    ensures Repeats(DIGIT, 1, Some(3), h[k..])
  {
    var groups := Times(Then(Times(DIGIT, 1, Some(3)), Text(".")), 3, Some(3));
    k :| 0 <= k <= |h| && Matches(groups, h[..k]) && Matches(Times(DIGIT, 1, Some(3)), h[k..]);
  }

  lemma HostParts(front: string, back: string)
    requires front != "" && AllInClass(front, HOST_CHARS) && InClass(front[0], ALPHANUMERIC)
    requires back != "" && Decimal.AllDigits(back) && |front| + |back| <= 253
    ensures IsHost(front + back)
  {
    hide InClass;
    var h := front + back;
    forall i | 0 <= i < |h| ensures InClass(h[i], HOST_CHARS) {
      DigitClass(h[i]);
    }
    DigitClass(back[|back| - 1]);
  }

  /** The dotted form of the `remote` pattern adds nothing: every such text is already a host. */
  lemma DottedIsHost(h: string)
    requires Matches(DOTTED, h)
    ensures IsHost(h)
  {
    hide InClass, Matches, Repeats, IsHost, AllInClass;
    var k := DottedSplits(h);
    GroupsMean(3, h[..k]);
    RepeatedClass([Range('0', '9')], 1, Some(3), h[k..]);
    DigitsClass(h[k..]);
    HostParts(h[..k], h[k..]);
    assert h[..k] + h[k..] == h;
  }

  lemma PortMeans(p: string)
    ensures Matches(PORT, p) <==> 1 <= |p| <= 5 && Decimal.AllDigits(p) && p[0] != '0'
  {
    hide InClass;
    if |p| >= 1 {
      RepeatedClass([Range('0', '9')], 0, Some(4), p[1..]);
      DigitsClass(p[1..]);
      DigitClass(p[0]);
      assert forall k :: 0 <= k <= |p| && Matches(NONZERO, p[..k]) ==> k == 1;
      assert Matches(PORT, p) <==> Matches(NONZERO, p[..1]) && Matches(Times(DIGIT, 0, Some(4)), p[1..]);
      assert Decimal.AllDigits(p) <==> Decimal.IsDigit(p[0]) && Decimal.AllDigits(p[1..]);
    }
  }

  /** Decimal texts without leading zeros are the printed positive numbers. */
  lemma {:induction false} PrintParse(p: string)
    requires |p| >= 1 && Decimal.AllDigits(p) && p[0] != '0'
    ensures Decimal.Parse(p) >= 1 && Decimal.Print(Decimal.Parse(p)) == p
  {
    if |p| == 1 {
      assert p[..0] == "";
    } else {
      PrintParse(p[..|p| - 1]);
    }
  }

  lemma {:induction false} PrintLeads(n: nat)
    requires n >= 1
    ensures Decimal.Print(n)[0] != '0'
  {
    if n >= 10 {
      PrintLeads(n / 10);
    }
  }

  lemma RemoteSplits(line: string) returns (h: string, p: string)
    requires Matches(REMOTE, line)
    ensures line == "remote " + h + " " + p && Matches(Or(HOST, DOTTED), h) && Matches(PORT, p)
  {
    hide Matches;
    ThenText("remote ", Then(Or(HOST, DOTTED), Then(Text(" "), PORT)), line);
    var t := line[|"remote "|..];
    var k := ThenSplit(Or(HOST, DOTTED), Then(Text(" "), PORT), t);
    ThenText(" ", PORT, t[k..]);
    h, p := t[..k], t[k..][1..];
    assert t == h + " " + p;
  }

  lemma RemoteJoins(h: string, p: string)
    requires Matches(Or(HOST, DOTTED), h) && Matches(PORT, p)
    ensures Matches(REMOTE, "remote " + h + " " + p)
  {
    hide Matches;
    Itself(" ");
    Itself("remote ");
    MatchesThen(Text(" "), PORT, " ", p);
    MatchesThen(Or(HOST, DOTTED), Then(Text(" "), PORT), h, " " + p);
    MatchesThen(Text("remote "), Then(Or(HOST, DOTTED), Then(Text(" "), PORT)), "remote ", h + (" " + p));
    assert "remote " + (h + (" " + p)) == "remote " + h + " " + p;
  }

  lemma {:induction false} LastWordIs(front: string, w: string)
    requires ' ' !in w
    ensures LastWord(front + " " + w) == w
  {
    if w != "" {
      var n := |w| - 1;
      LastWordIs(front, w[..n]);
      assert (front + " " + w)[..|front + " " + w| - 1] == front + " " + w[..n];
    }
  }

  lemma PortText(port: nat)
    requires 1 <= port <= 65535
    ensures Matches(PORT, Decimal.Print(port))
    ensures ' ' !in Decimal.Print(port) && Decimal.Parse(Decimal.Print(port)) == port
  {
    hide Matches;
    assert Decimal.Power10(5) == 100_000;
    Decimal.PrintLength(port, 5);
    PrintLeads(port);
    PortMeans(Decimal.Print(port));
    Decimal.ParsePrint(port);
  }

  lemma PortRead(p: string)
    requires Matches(PORT, p)
    ensures Decimal.AllDigits(p) && ' ' !in p && Decimal.Parse(p) >= 1 && Decimal.Print(Decimal.Parse(p)) == p
  {
    hide Matches;
    PortMeans(p);
    PrintParse(p);
  }

  lemma RemoteHost(h: string)
    ensures Matches(Or(HOST, DOTTED), h) <==> IsHost(h)
  {
    hide Matches, IsHost;
    OrMeans(HOST, DOTTED, h);
    HostMeans(h);
    if Matches(DOTTED, h) {
      DottedIsHost(h);
    }
  }

  lemma RemoteNames(line: string) returns (host: string, port: nat)
    requires IsRemote(line)
    ensures line == RemoteLine(host, port) && IsHost(host) && 1 <= port <= 65535
  {
    hide Matches, IsHost, LastWord, Decimal.Print, Decimal.Parse;
    var h, p := RemoteSplits(line);
    RemoteHost(h);
    PortRead(p);
    LastWordIs("remote " + h, p);
    host, port := h, Decimal.Parse(p);
  }

  lemma NamesRemote(host: string, port: nat)
    requires IsHost(host) && 1 <= port <= 65535
    ensures IsRemote(RemoteLine(host, port))
  {
    hide Matches, IsHost, LastWord, Decimal.Print, Decimal.Parse;
    RemoteHost(host);
    PortText(port);
    LastWordIs("remote " + host, Decimal.Print(port));
    RemoteJoins(host, Decimal.Print(port));
  }

  /** A `remote` line is accepted exactly when it names a host and, in plain decimal, a port from 1 to 65535. */
  lemma RemoteMeans(line: string)
    ensures IsRemote(line) <==> exists host: string, port: nat :: line == RemoteLine(host, port) && IsHost(host) && 1 <= port <= 65535
  {
    hide IsRemote, IsHost, RemoteLine;
    if IsRemote(line) {
      var host, port := RemoteNames(line);
    }
    if host: string, port: nat :| line == RemoteLine(host, port) && IsHost(host) && 1 <= port <= 65535 {
      NamesRemote(host, port);
    }
  }

  lemma OrMeans(a: Regex, b: Regex, s: string)
    ensures Matches(Or(a, b), s) <==> Matches(a, s) || Matches(b, s)
  {
  }

  // ---- The directives ---------------------------------------------------------------------------------------------

  /** The directive sets one of the options: its name, a space, and an admissible value. */
  ghost predicate Sets(name: string, line: string) {
    exists i, value :: 0 <= i < |OPTIONAL| && OPTIONAL[i].name == name && line == name + " " + value
      && Matches(OPTIONAL[i].value, value)
  }

  lemma {:induction false} FirstWordIs(name: string, rest: string)
    requires ' ' !in name
    ensures FirstWord(name + " " + rest) == name
  {
    if name != "" {
      FirstWordIs(name[1..], rest);
      assert (name + " " + rest)[1..] == name[1..] + " " + rest;
    }
  }

  lemma NamesAreKnown(i: nat)
    requires i < |OPTIONAL|
    ensures OPTIONAL[i].name in NAMES
  {
  }

  lemma NamesAreWords(name: string)
    requires name in NAMES
    ensures ' ' !in name
  {
  }

  const NAMES: set<string> := {
    "cipher", "data-ciphers", "data-ciphers-fallback", "verify-x509-name", "auth", "resolv-retry", "route-delay", "reneg-sec",
    "key-direction"}

  lemma SettingSets(i: nat, line: string)
    requires i < |OPTIONAL| && IsSetting(OPTIONAL[i], line)
    ensures FirstWord(line) == OPTIONAL[i].name && Sets(OPTIONAL[i].name, line)
  {
    hide Matches;
    var name := OPTIONAL[i].name;
    ThenText(name + " ", OPTIONAL[i].value, line);
    var value := line[|name + " "|..];
    assert line == name + " " + value;
    NamesAreKnown(i);
    NamesAreWords(name);
    FirstWordIs(name, value);
  }

  lemma SetsOptional(name: string, line: string)
    requires Sets(name, line)
    ensures IsOptional(line) && FirstWord(line) == name && name in NAMES
  {
    hide Matches, FirstWord;
    var i, value :| 0 <= i < |OPTIONAL| && OPTIONAL[i].name == name && line == name + " " + value && Matches(OPTIONAL[i].value, value);
    Itself(name + " ");
    MatchesThen(Text(name + " "), OPTIONAL[i].value, name + " ", value);
    assert IsSetting(OPTIONAL[i], line);
    NamesAreKnown(i);
    NamesAreWords(name);
    FirstWordIs(name, value);
  }

  /** `name` is the first word of `line`. */
  predicate Leads(name: string, line: string) {
    name <= line && (|name| < |line| ==> line[|name|] == ' ')
  }

  /** The fixed lines without an address. */
  const FIXED: set<string> := {
    "client", "dev tun0", "proto tcp-client", "nobind", "persist-key", "persist-tun", "auth-user-pass /vpn/auth",
    "auth-nocache", "route-nopull", "script-security 1", "remote-cert-tls server", "verb 3"}

  predicate Head(s: string, a: char, b: char) {
    |s| >= 2 && s[0] == a && s[1] == b
  }

  lemma NameHeads(name: string)
    requires name in NAMES
    ensures Head(name, 'c', 'i') || Head(name, 'd', 'a') || name == "verify-x509-name" || name == "auth" || name == "resolv-retry"
      || name == "route-delay" || name == "reneg-sec" || Head(name, 'k', 'e')
  {
  }

  lemma FixedHeads(line: string)
    requires line in FIXED
    ensures Head(line, 'c', 'l') || Head(line, 'd', 'e') || Head(line, 'p', 'r') || Head(line, 'n', 'o') || Head(line, 'p', 'e')
      || Head(line, 's', 'c') || LikeOption(line)
  {
  }

  /** The fixed lines that begin like some option. */
  predicate LikeOption(line: string) {
    line == "auth-user-pass /vpn/auth" || line == "auth-nocache" || line == "route-nopull" || line == "remote-cert-tls server"
      || line == "verb 3"
  }

  lemma Mismatch(name: string, line: string, i: nat)
    requires i < |name| && i < |line| && name[i] != line[i]
    ensures !(name <= line)
  {
  }

  lemma CloseCalls(name: string, line: string)
    requires LikeOption(line)
    requires name == "verify-x509-name" || name == "auth" || name == "resolv-retry" || name == "route-delay" || name == "reneg-sec"
    ensures !Leads(name, line)
  {
    Differs(name, line);
  }

  /** Where a name and a fixed line part, if they part early; only `auth` runs on to the dash of `auth-…`. */
  lemma Differs(name: string, line: string)
    requires |name| >= 4 && |line| >= 6
    ensures name[0] != line[0] || name[1] != line[1] || name[2] != line[2] || name[3] != line[3] ==> !(name <= line)
    ensures |name| >= 7 && |line| >= 7 && (name[5] != line[5] || name[6] != line[6]) ==> !(name <= line)
  {
    if name <= line {
      assert name[0] == line[0] && name[1] == line[1] && name[2] == line[2] && name[3] == line[3];
    }
  }

  lemma OtherHeads(name: string, line: string)
    requires LikeOption(line) && (Head(name, 'c', 'i') || Head(name, 'd', 'a') || Head(name, 'k', 'e'))
    ensures !Leads(name, line)
  {
    LikeOptionHeads(line);
    hide LikeOption;
    Mismatch(name, line, 0);
  }

  lemma LikeOptionHeads(line: string)
    requires LikeOption(line)
    ensures Head(line, 'a', 'u') || Head(line, 'r', 'o') || Head(line, 'r', 'e') || Head(line, 'v', 'e')
  {
  }

  lemma FixedApart(name: string, line: string)
    requires name in NAMES && line in FIXED
    ensures !Leads(name, line)
  {
    NameHeads(name);
    FixedHeads(line);
    hide LikeOption;
    if LikeOption(line) {
      if Head(name, 'c', 'i') || Head(name, 'd', 'a') || Head(name, 'k', 'e') {
        OtherHeads(name, line);
      } else {
        CloseCalls(name, line);
      }
    } else {
      Mismatch(name, line, if name[0] != line[0] then 0 else 1);
    }
  }

  lemma RouteApart(name: string, target: string, gateway: string)
    requires name in NAMES
    ensures !Leads(name, RouteLine(target, gateway))
  {
    var line := RouteLine(target, gateway);
    NameHeads(name);
    assert line[0] == 'r' && line[1] == 'o' && line[2] == 'u' && line[3] == 't' && line[4] == 'e' && line[5] == ' ';
    Mismatch(name, line, if name[0] != line[0] then 0 else if name[1] != line[1] then 1 else 5);
  }

  lemma ExactSplits(line: string, host: string)
    ensures line in Exact(host) <==>
      line in FIXED || line == RouteLine("remote_host", "net_gateway") || line == RouteLine(host, "vpn_gateway")
  {
    hide RouteLine;
  }

  lemma FixedIsNotRemote(line: string)
    requires line in FIXED
    ensures !("remote " <= line)
  {
    var i := if |line| < 7 then 0 else if line[0] != 'r' then 0 else if line[1] != 'e' then 1 else 6;
    if |line| >= 7 {
      Mismatch("remote ", line, i);
    }
  }

  lemma RouteIsNotRemote(target: string, gateway: string)
    ensures !("remote " <= RouteLine(target, gateway))
  {
    var line := RouteLine(target, gateway);
    assert line[1] == 'o';
    Mismatch("remote ", line, 1);
  }

  lemma FirstWordLeads(line: string)
    ensures Leads(FirstWord(line), line)
  {
  }

  /** No fixed line reads as an option or as a remote line. */
  lemma ExactIsApart(line: string, host: string)
    requires line in Exact(host)
    ensures FirstWord(line) !in NAMES && !("remote " <= line)
  {
    hide Exact, FIXED, FirstWord, Leads, NAMES, RouteLine;
    ExactSplits(line, host);
    FirstWordLeads(line);
    var word := FirstWord(line);
    if line in FIXED {
      FixedIsNotRemote(line);
      if word in NAMES {
        FixedApart(word, line);
      }
    } else {
      RouteIsNotRemote("remote_host", "net_gateway");
      RouteIsNotRemote(host, "vpn_gateway");
      if word in NAMES {
        RouteApart(word, "remote_host", "net_gateway");
        RouteApart(word, host, "vpn_gateway");
      }
    }
  }

  lemma RemoteWord(line: string)
    requires "remote " <= line
    ensures FirstWord(line) == "remote"
  {
    FirstWordIs("remote", line[|"remote "|..]);
    assert line == "remote" + " " + line[|"remote "|..];
  }

  lemma RemoteStarts(line: string)
    requires IsRemote(line)
    ensures "remote " <= line
  {
    hide Matches;
    ThenText("remote ", Then(Or(HOST, DOTTED), Then(Text(" "), PORT)), line);
  }

  /** The slot of a line, by its kind. */
  lemma SlotCases(line: string, host: string, name: string)
    ensures Slot(line, host) == Some(name) <==>
      (name == "remote" && IsRemote(line)) || (name == line && line in Exact(host)) || Sets(name, line)
  {
    hide IsRemote, Exact, FirstWord, Sets, IsSetting;
    if IsRemote(line) {
      RemoteStarts(line);
    }
    if line in Exact(host) {
      ExactIsApart(line, host);
    }
    if Sets(name, line) {
      SetsOptional(name, line);
    }
    if "remote " <= line {
      RemoteWord(line);
    }
    if IsOptional(line) {
      var i :| 0 <= i < |OPTIONAL| && IsSetting(OPTIONAL[i], line);
      SettingSets(i, line);
    }
  }
}
