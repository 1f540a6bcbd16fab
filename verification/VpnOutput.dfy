/** What reaches OpenVPN 3: the accepted profile's directives and blocks, read off the written lines. */
module VpnOutput {
  import opened Basics
  import opened Regexes
  import opened VpnProfile
  import opened VpnGrammar
  import opened VpnTexts
  import opened VpnOptions

  // ---- Reading lines, whoever wrote them ---------------------------------------------------------------------

  const OPENINGS: set<string> := {"<ca>", "<cert>", "<key>", "<tls-auth>", "<tls-crypt>"}

  /** The name of the block that is open after these lines. */
  function OpenAfter(lines: seq<string>): Option<string> {
    if lines == [] then None else
    var before, line := OpenAfter(lines[..|lines| - 1]), Strip(lines[|lines| - 1]);
    match before
    case Some(tag) => if line == "</" + tag + ">" then None else before
    case None => if line in OPENINGS && |line| >= 2 then Some(line[1..|line| - 1]) else None
  }

  predicate IsDirective(lines: seq<string>, line: string) {
    OpenAfter(lines).None? && line != "" && line !in OPENINGS
  }

  /** The directives: the stripped lines outside the blocks, without blank lines and opening tags. */
  function Outside(lines: seq<string>): seq<string> {
    if lines == [] then [] else
    var front, line := lines[..|lines| - 1], Strip(lines[|lines| - 1]);
    Outside(front) + if IsDirective(front, line) then [line] else []
  }

  /** The blocks: their lines as they are, but for the blanks around an opening tag. */
  function Blocks(lines: seq<string>): seq<string> {
    if lines == [] then [] else
    var front, raw := lines[..|lines| - 1], lines[|lines| - 1];
    Blocks(front) +
      if OpenAfter(front).Some? then [raw] else if Strip(raw) in OPENINGS then [Strip(raw)] else []
  }

  /** What OpenVPN 3 is to get of a list of directives: two are renamed, two options that name ciphers and two
      fixed lines are dropped, and everything else stays. */
  function Wanted(directives: seq<string>, host: string): seq<string> {
    if directives == [] then [] else
    var front, line := directives[..|directives| - 1], directives[|directives| - 1];
    Wanted(front, host) +
      if Slot(line, host) in {Some("data-ciphers"), Some("data-ciphers-fallback"), Some("auth-nocache"), Some("script-security 1")}
      then []
      else if line == "dev tun0" then ["dev tun"]
      else if line == "auth-user-pass /vpn/auth" then ["auth-user-pass"]
      else [line]
  }

  /** The directives that name a server. */
  function Remotes(directives: seq<string>): seq<string> {
    if directives == [] then [] else
    var front, line := directives[..|directives| - 1], directives[|directives| - 1];
    Remotes(front) + if "remote " <= line then [line] else []
  }

  // ---- Stripping ------------------------------------------------------------------------------------------------

  predicate AllBlank(s: string) {
    forall i :: 0 <= i < |s| ==> s[i] == ' ' || s[i] == '\t'
  }

  predicate Bare(s: string) {
    s == "" || (s[0] != ' ' && s[0] != '\t' && s[|s| - 1] != ' ' && s[|s| - 1] != '\t')
  }

  lemma {:induction false} StripLeftExactly(blanks: string, core: string)
    requires AllBlank(blanks) && (core != "" ==> core[0] != ' ' && core[0] != '\t')
    ensures StripLeft(blanks + core) == core
  {
    if blanks == "" {
      assert blanks + core == core;
    } else {
      assert (blanks + core)[1..] == blanks[1..] + core;
      StripLeftExactly(blanks[1..], core);
    }
  }

  lemma {:induction false} StripRightExactly(core: string, blanks: string)
    requires AllBlank(blanks) && (core != "" ==> core[|core| - 1] != ' ' && core[|core| - 1] != '\t')
    ensures StripRight(core + blanks) == core
  {
    if blanks == "" {
      assert core + blanks == core;
    } else {
      assert (core + blanks)[..|core + blanks| - 1] == core + blanks[..|blanks| - 1];
      StripRightExactly(core, blanks[..|blanks| - 1]);
    }
  }

  /** Stripping removes the spaces and tabs at both ends and nothing else. */
  lemma StripExactly(left: string, core: string, right: string)
    requires AllBlank(left) && AllBlank(right) && Bare(core)
    ensures Strip(left + core + right) == core
  {
    if core == "" {
      assert left + core + right == (left + right) + "";
      StripLeftExactly(left + right, "");
    } else {
      assert left + core + right == left + (core + right);
      StripLeftExactly(left, core + right);
      StripRightExactly(core, right);
    }
  }

  lemma {:induction false} StripRightKeepsLeft(s: string)
    requires s != "" && s[0] != ' ' && s[0] != '\t'
    ensures StripRight(s) != "" && StripRight(s)[0] == s[0]
    ensures var t := StripRight(s); t[|t| - 1] != ' ' && t[|t| - 1] != '\t'
  {
    if VpnProfile.IsBlank(s[|s| - 1]) {
      StripRightKeepsLeft(s[..|s| - 1]);
    }
  }

  lemma {:induction false} StripLeftIsBare(s: string)
    ensures StripLeft(s) != "" ==> StripLeft(s)[0] != ' ' && StripLeft(s)[0] != '\t'
  {
    if s != "" && VpnProfile.IsBlank(s[0]) {
      StripLeftIsBare(s[1..]);
    }
  }

  lemma StripTwice(s: string)
    ensures Bare(Strip(s)) && Strip(Strip(s)) == Strip(s)
  {
    StripLeftIsBare(s);
    if StripLeft(s) != "" {
      StripRightKeepsLeft(StripLeft(s));
    }
    var core := Strip(s);
    StripExactly("", core, "");
    assert "" + core + "" == core;
  }

  // ---- One line more ------------------------------------------------------------------------------------------

  lemma LinesGrow(lines: seq<string>, raw: string)
    ensures var more, line := lines + [raw], Strip(raw);
      && OpenAfter(more) == (match OpenAfter(lines)
           case Some(tag) => if line == "</" + tag + ">" then None else Some(tag)
           case None => if line in OPENINGS && |line| >= 2 then Some(line[1..|line| - 1]) else None)
      && Outside(more) == (if IsDirective(lines, line) then Outside(lines) + [line] else Outside(lines))
      && Blocks(more) == (if OpenAfter(lines).Some? then Blocks(lines) + [raw]
                          else if line in OPENINGS then Blocks(lines) + [line] else Blocks(lines))
  {
    hide Strip;
    assert (lines + [raw])[..|lines|] == lines;
  }

  lemma DirectivesGrow(directives: seq<string>, line: string, host: string)
    ensures var more := directives + [line];
      && Wanted(more, host) == Wanted(directives, host) + Wanted([line], host)
      && Remotes(more) == (if "remote " <= line then Remotes(directives) + [line] else Remotes(directives))
  {
    hide Slot;
    assert (directives + [line])[..|directives|] == directives;
    assert [line][..0] == [];
    assert Wanted([line][..0], host) == [];
  }

  lemma OpeningTexts()
    ensures Opening("ca") == "<ca>" && Opening("cert") == "<cert>" && Opening("key") == "<key>"
    ensures Opening("tls-auth") == "<tls-auth>" && Opening("tls-crypt") == "<tls-crypt>"
  {
  }

  lemma TagsAreOpenings(line: string)
    ensures TagOf(line).Some? <==> line in OPENINGS
    ensures line in OPENINGS ==> |line| >= 2 && TagOf(line) == Some(line[1..|line| - 1])
  {
    hide Opening, TagOf;
    OpeningTexts();
    TagIsOpening(line, "ca");
    TagIsOpening(line, "cert");
    TagIsOpening(line, "key");
    TagIsOpening(line, "tls-auth");
    TagIsOpening(line, "tls-crypt");
    if TagOf(line).Some? {
      TagIsOpening(line, TagOf(line).value);
    }
    if line in OPENINGS {
      OpeningName(line, TagOf(line).value);
    }
  }

  lemma OpeningName(line: string, tag: string)
    requires line == Opening(tag)
    ensures |line| >= 2 && line[1..|line| - 1] == tag
  {
  }

  // ---- The machine's output ----------------------------------------------------------------------------------------

  lemma PrefixWord(name: string, line: string)
    requires ' ' !in name && name + " " <= line
    ensures FirstWord(line) == name
  {
    FirstWordIs(name, line[|name| + 1..]);
    assert line == name + " " + line[|name| + 1..];
  }

  /** Of the directives, those under an option's keyword are those that begin with it. */
  lemma KeywordSlot(name: string, line: string, host: string)
    requires name in NAMES && Slot(line, host).Some?
    ensures Slot(line, host) == Some(name) <==> name + " " <= line
  {
    hide Slot, Sets, IsRemote, Exact, FirstWord;
    SlotCases(line, host, Slot(line, host).value);
    NamesAreWords(name);
    NameIsNotRemote(name);
    if name + " " <= line {
      PrefixWord(name, line);
      if line in Exact(host) {
        ExactIsApart(line, host);
      }
      if IsRemote(line) {
        RemoteStarts(line);
        RemoteWord(line);
      }
      if Sets(Slot(line, host).value, line) {
        SetsOptional(Slot(line, host).value, line);
      }
    }
    if Slot(line, host) == Some(name) {
      if line in Exact(host) && name == line {
        ExactIsApart(line, host);
        WholeWord(line);
      }
      SetsPrefix(name, line);
    }
  }

  lemma SetsPrefix(name: string, line: string)
    ensures Sets(name, line) ==> name + " " <= line
  {
    hide Matches;
  }

  lemma WholeWord(line: string)
    ensures ' ' !in line ==> FirstWord(line) == line
  {
  }

  lemma NameIsNotRemote(name: string)
    requires name in NAMES
    ensures name != "remote"
  {
  }

  lemma SlotsOfFixed(line: string, host: string)
    requires line == "auth-nocache" || line == "script-security 1" || line == "dev tun0" || line == "auth-user-pass /vpn/auth"
    ensures Slot(line, host) == Some(line)
  {
    hide Slot, Sets, IsRemote;
    SlotCases(line, host, line);
  }

  lemma FixedSlotIsLine(line: string, host: string, name: string)
    requires name == "auth-nocache" || name == "script-security 1"
    requires Slot(line, host) == Some(name)
    ensures line == name
  {
    hide Slot, Sets, IsRemote, NAMES;
    SlotCases(line, host, name);
    if Sets(name, line) {
      SetsOptional(name, line);
      FixedIsNotName(name);
    }
  }

  lemma FixedIsNotName(name: string)
    requires name == "auth-nocache" || name == "script-security 1"
    ensures name !in NAMES
  {
  }

  /** The image of one directive is what is wanted of it. */
  lemma ImageIsWanted(line: string, host: string)
    requires Slot(line, host).Some?
    ensures DirectiveImage(line) == Wanted([line], host)
  {
    hide Slot, NAMES;
    assert [line][..0] == [] && Wanted([line][..0], host) == [];
    assert "data-ciphers" in NAMES && "data-ciphers-fallback" in NAMES by { CipherNames(); }
    KeywordSlot("data-ciphers", line, host);
    KeywordSlot("data-ciphers-fallback", line, host);
    assert "data-ciphers" + " " == "data-ciphers " && "data-ciphers-fallback" + " " == "data-ciphers-fallback ";
    if line == "auth-nocache" || line == "script-security 1" || line == "dev tun0" || line == "auth-user-pass /vpn/auth" {
      SlotsOfFixed(line, host);
    }
    if Slot(line, host) == Some("auth-nocache") {
      FixedSlotIsLine(line, host, "auth-nocache");
    }
    if Slot(line, host) == Some("script-security 1") {
      FixedSlotIsLine(line, host, "script-security 1");
    }
  }

  lemma CipherNames()
    ensures "data-ciphers" in NAMES && "data-ciphers-fallback" in NAMES
  {
  }

  /** Some directive has this slot. */
  ghost predicate Named(directives: seq<string>, host: string, slot: string) {
    exists i :: 0 <= i < |directives| && Slot(directives[i], host) == Some(slot)
  }

  /** The lines read and the lines written, in step. */
  ghost predicate InStep(s: State, lines: seq<string>, host: string) {
    && OpenAfter(lines) == OpenAfter(s.output) == s.block
    && Outside(s.output) == Wanted(Outside(lines), host)
    && Blocks(s.output) == Blocks(lines)
    && Remotes(Outside(s.output)) == Remotes(Outside(lines))
    && |Remotes(Outside(lines))| == (if "remote" in s.seen then 1 else 0)
    && (forall slot :: slot in s.seen <==> Named(Outside(lines), host, slot))
  }

  lemma NamedGrows(directives: seq<string>, line: string, host: string, slot: string)
    ensures Named(directives + [line], host, slot) <==> Named(directives, host, slot) || Slot(line, host) == Some(slot)
  {
    hide Slot;
    var more := directives + [line];
    assert more[|directives|] == line;
    if i :| 0 <= i < |directives| && Slot(directives[i], host) == Some(slot) {
      assert more[i] == directives[i];
    }
  }

  /** The image of a directive is a directive, or nothing; a `remote` line is its own image. */
  lemma ImageReads(line: string)
    requires Bare(line) && line != "" && line !in OPENINGS
    ensures var image := DirectiveImage(line);
      && |image| <= 1
      && (image != [] ==> image[0] != "" && image[0] !in OPENINGS && Strip(image[0]) == image[0])
      && ("remote " <= line ==> image == [line])
      && (!("remote " <= line) ==> image == [] || !("remote " <= image[0]))
  {
    hide Strip, OPENINGS;
    RenamedLines();
    if "data-ciphers " <= line || "data-ciphers-fallback " <= line {
      CiphersAreNotRemote(line);
    }
    if DirectiveImage(line) != [] {
      var x := DirectiveImage(line)[0];
      assert "" + x + "" == x;
      StripExactly("", x, "");
    }
  }

  lemma CiphersAreNotRemote(line: string)
    requires "data-ciphers " <= line || "data-ciphers-fallback " <= line
    ensures !("remote " <= line)
  {
    assert line[0] == 'd';
    Mismatch("remote ", line, 0);
  }

  lemma RenamedLines()
    ensures Bare("dev tun") && Bare("auth-user-pass") && "dev tun" !in OPENINGS && "auth-user-pass" !in OPENINGS
    ensures !("remote " <= "dev tun") && !("remote " <= "dev tun0") && !("remote " <= "auth-user-pass")
    ensures !("remote " <= "auth-user-pass /vpn/auth") && !("remote " <= "auth-nocache") && !("remote " <= "script-security 1")
  {
    Mismatch("remote ", "dev tun0", 0);
    Mismatch("remote ", "auth-user-pass", 0);
    Mismatch("remote ", "auth-user-pass /vpn/auth", 0);
    Mismatch("remote ", "auth-nocache", 0);
    Mismatch("remote ", "script-security 1", 0);
  }

  lemma RemoteSlot(line: string, host: string)
    requires Slot(line, host).Some?
    ensures Slot(line, host) == Some("remote") <==> "remote " <= line
  {
    hide Sets, IsRemote, Exact, NAMES;
    SlotCases(line, host, "remote");
    if line in Exact(host) {
      ExactIsApart(line, host);
      RemoteIsNotFixed(line, host);
    }
    if Sets("remote", line) {
      SetsOptional("remote", line);
      NameIsNotRemote("remote");
    }
    if IsRemote(line) {
      RemoteStarts(line);
    }
  }

  lemma RemoteIsNotFixed(line: string, host: string)
    requires line in Exact(host)
    ensures line != "remote"
  {
  }

  lemma StepInside(s: State, lines: seq<string>, raw: string, host: string)
    requires InStep(s, lines, host) && s.block.Some? && Next(s, raw, host).Some?
    ensures InStep(Next(s, raw, host).value, lines + [raw], host)
  {
    hide Strip, Slot, Wanted, Remotes, Named, Matches;
    LinesGrow(lines, raw);
    LinesGrow(s.output, raw);
  }

  lemma StepOutside(s: State, lines: seq<string>, raw: string, host: string)
    requires InStep(s, lines, host) && s.block.None? && Next(s, raw, host).Some?
    requires Strip(raw) == "" || Strip(raw) in OPENINGS
    ensures InStep(Next(s, raw, host).value, lines + [raw], host)
  {
    hide Strip, Slot, Wanted, Remotes, Named, Matches, TagOf, OPENINGS, Outside, Blocks, OpenAfter;
    var line := Strip(raw);
    TagsAreOpenings(line);
    LinesGrow(lines, raw);
    if line in OPENINGS {
      StripTwice(raw);
      LinesGrow(s.output, line);
    }
  }

  lemma StepDirective(s: State, lines: seq<string>, raw: string, host: string)
    requires InStep(s, lines, host) && s.block.None? && Next(s, raw, host).Some?
    requires Strip(raw) != "" && Strip(raw) !in OPENINGS
    ensures InStep(Next(s, raw, host).value, lines + [raw], host)
  {
    hide Strip, Slot, Wanted, Remotes, Named, Matches, TagOf, OPENINGS, Outside, Blocks, OpenAfter, DirectiveImage;
    var line := Strip(raw);
    TagsAreOpenings(line);
    LinesGrow(lines, raw);
    StripTwice(raw);
    ImageIsWanted(line, host);
    ImageReads(line);
    RemoteSlot(line, host);
    DirectivesGrow(Outside(lines), line, host);
    forall slot ensures Named(Outside(lines + [raw]), host, slot) <==> slot in s.seen || Slot(line, host) == Some(slot) {
      NamedGrows(Outside(lines), line, host, slot);
    }
    var image := DirectiveImage(line);
    if image == [] {
      assert s.output + [] == s.output && Outside(s.output) + [] == Outside(s.output);
    } else {
      assert image == [image[0]];
      LinesGrow(s.output, image[0]);
      DirectivesGrow(Outside(s.output), image[0], host);
    }
  }

  lemma {:induction false} ScanInStep(lines: seq<string>, host: string)
    requires Scan(lines, host).Some?
    ensures InStep(Scan(lines, host).value, lines, host)
  {
    hide InStep, Next, Strip, OPENINGS;
    if lines == [] {
      NothingRead(host);
    } else {
      var front, raw := lines[..|lines| - 1], lines[|lines| - 1];
      ScanInStep(front, host);
      var s := Scan(front, host).value;
      assert front + [raw] == lines;
      if s.block.Some? {
        StepInside(s, front, raw, host);
      } else if Strip(raw) == "" || Strip(raw) in OPENINGS {
        StepOutside(s, front, raw, host);
      } else {
        StepDirective(s, front, raw, host);
      }
    }
  }

  lemma NothingRead(host: string)
    ensures InStep(START, [], host)
  {
  }

  lemma FixedOccurs(directives: seq<string>, host: string, line: string)
    requires line in Exact(host) && Named(directives, host, line)
    ensures line in directives
  {
    hide Slot, Sets, IsRemote, Exact, NAMES;
    var i :| 0 <= i < |directives| && Slot(directives[i], host) == Some(line);
    SlotCases(directives[i], host, line);
    if Sets(line, directives[i]) {
      SetsOptional(line, directives[i]);
      ExactIsApart(line, host);
      NamesAreWords(line);
      WholeWord(line);
    }
    if line == "remote" {
      RemoteIsNotFixed(line, host);
    }
  }

  lemma RemotesAre(directives: seq<string>, r: string, host: string)
    requires Remotes(directives) == [r]
    ensures "remote " <= r && r in directives
    decreases |directives|
  {
    var front, line := directives[..|directives| - 1], directives[|directives| - 1];
    if "remote " <= line {
      assert Remotes(directives)[|Remotes(front)|] == line;
    } else {
      assert Remotes(front) == [r];
      RemotesAre(front, r, host);
    }
  }

  lemma {:induction false} DirectivesHaveSlots(lines: seq<string>, host: string, line: string)
    requires Scan(lines, host).Some? && line in Outside(lines)
    ensures Slot(line, host).Some?
  {
    hide Slot, Strip, OPENINGS, InStep;
    var front, raw := lines[..|lines| - 1], lines[|lines| - 1];
    ScanInStep(front, host);
    InStepBlock(Scan(front, host).value, front, host);
    TagsAreOpenings(Strip(raw));
    if line in Outside(front) {
      DirectivesHaveSlots(front, host, line);
    }
  }

  lemma InStepBlock(s: State, lines: seq<string>, host: string)
    requires InStep(s, lines, host)
    ensures OpenAfter(lines) == s.block
  {
  }

  /** What is written of an accepted profile, read line by line: outside the blocks the wanted form of exactly
      its directives, in order; the blocks line for line; every fixed line was there; and its one `remote` line is
      written as it stands, as the only one. */
  lemma OutputReads(lines: seq<string>, host: string) returns (remote: string)
    requires AdaptLines(lines, host).Some?
    ensures var output := AdaptLines(lines, host).value;
      && Outside(output) == Wanted(Outside(lines), host)
      && Blocks(output) == Blocks(lines)
      && OpenAfter(lines) == None && OpenAfter(output) == None
      && Remotes(Outside(lines)) == Remotes(Outside(output)) == [remote]
    ensures IsRemote(remote) && remote in Outside(lines)
    ensures forall line :: IsFixed(line, host) ==> line in Outside(lines)
    ensures forall line :: line in Outside(lines) ==> Slot(line, host).Some?
  {
    hide Slot, IsFixed, Exact, IsRemote, Named, Outside, Blocks, OpenAfter, Wanted, Remotes;
    ScanInStep(lines, host);
    var s := Scan(lines, host).value;
    remote := Remotes(Outside(lines))[0];
    RemotesAre(Outside(lines), remote, host);
    DirectivesHaveSlots(lines, host, remote);
    RemoteIs(remote, host);
    forall line | IsFixed(line, host) ensures line in Outside(lines) {
      FixedIsExact(line, host);
      assert line in s.seen;
      FixedOccurs(Outside(lines), host, line);
    }
    forall line | line in Outside(lines) ensures Slot(line, host).Some? {
      DirectivesHaveSlots(lines, host, line);
    }
  }

  lemma RemoteIs(line: string, host: string)
    requires "remote " <= line && Slot(line, host).Some?
    ensures IsRemote(line)
  {
  }

  /** The same of texts. */
  lemma TextReads(text: string, host: Option<string>) returns (remote: string)
    requires AdaptProfile(text, host).Some?
    ensures var read, written := SplitLines(text), SplitLines(AdaptProfile(text, host).value);
      && Outside(written) == Wanted(Outside(read), host.value)
      && Blocks(written) == Blocks(read)
      && Remotes(Outside(read)) == Remotes(Outside(written)) == [remote]
    ensures IsRemote(remote)
  {
    hide AdaptLines, SplitLines, JoinLines, LinesOf, Image, Profile, Outside, Wanted, Blocks, Remotes, IsFixed, IsRemote;
    remote := OutputReads(SplitLines(text), host.value);
    LinesAreGrammar(SplitLines(text), host.value);
    TextsAreGrammar(text, host);
    var items :| LinesOf(items) == SplitLines(text) && Profile(items, host.value);
  }
}
