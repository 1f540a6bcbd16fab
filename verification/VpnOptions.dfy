/** The directives in words: the fixed lines, and what each option's pattern accepts as its value. */
module VpnOptions {
  import opened Basics
  import opened Regexes
  import opened VpnProfile
  import opened VpnTexts
  import Decimal

  // ---- The fixed lines -----------------------------------------------------------------------------------------

  /** The fixed lines of every profile. */
  predicate IsFixed(line: string, host: string) {
    || line in FIXED
    || line == "route remote_host 255.255.255.255 net_gateway"
    || line == "route " + host + " 255.255.255.255 vpn_gateway"
  }

  lemma RemoteHostRoute()
    ensures RouteLine("remote_host", "net_gateway") == "route remote_host 255.255.255.255 net_gateway"
  {
  }

  lemma FixedIsExact(line: string, host: string)
    ensures line in Exact(host) <==> IsFixed(line, host)
  {
    hide FIXED;
    ExactSplits(line, host);
    RemoteHostRoute();
  }

  // ---- Hosts -------------------------------------------------------------------------------------------------------

  predicate IsAlphanumeric(c: char) {
    'A' <= c <= 'Z' || 'a' <= c <= 'z' || '0' <= c <= '9'
  }

  /** One to 253 letters, digits, dots and dashes, the first and the last of them no dot or dash. */
  predicate IsHostName(h: string) {
    && 1 <= |h| <= 253 && IsAlphanumeric(h[0]) && IsAlphanumeric(h[|h| - 1])
    && forall i :: 0 <= i < |h| ==> IsAlphanumeric(h[i]) || h[i] == '.' || h[i] == '-'
  }

  lemma HostClasses(c: char)
    ensures InClass(c, ALPHANUMERIC) <==> IsAlphanumeric(c)
    ensures InClass(c, HOST_CHARS) <==> IsAlphanumeric(c) || c == '.' || c == '-'
  {
    var i := if 'A' <= c <= 'Z' then 0 else if 'a' <= c <= 'z' then 1 else if '0' <= c <= '9' then 2 else if c == '.' then 3 else 4;
    assert HOST_CHARS[3] == Range('.', '.') && HOST_CHARS[4] == Range('-', '-') && |HOST_CHARS| == 5;
    assert i < 3 ==> HOST_CHARS[i] == ALPHANUMERIC[i];
    if IsAlphanumeric(c) {
      assert InRange(c, ALPHANUMERIC[i]);
    }
    if IsAlphanumeric(c) || c == '.' || c == '-' {
      assert InRange(c, HOST_CHARS[i]);
    }
    if InClass(c, HOST_CHARS) {
      var j :| 0 <= j < |HOST_CHARS| && InRange(c, HOST_CHARS[j]);
      assert j < 3 ==> HOST_CHARS[j] == ALPHANUMERIC[j];
    }
  }

  lemma HostInWords(h: string)
    ensures IsHost(h) <==> IsHostName(h)
  {
    hide InClass, IsAlphanumeric;
    forall c: char
      ensures InClass(c, ALPHANUMERIC) <==> IsAlphanumeric(c)
      ensures InClass(c, HOST_CHARS) <==> IsAlphanumeric(c) || c == '.' || c == '-'
    {
      HostClasses(c);
    }
  }

  /** Both forms of the host pattern together accept exactly these names. */
  lemma HostNameMeans(h: string)
    ensures Matches(Or(HOST, DOTTED), h) <==> IsHostName(h)
  {
    hide Matches, IsHost, IsHostName;
    RemoteHost(h);
    HostInWords(h);
  }

  // ---- The values of options -------------------------------------------------------------------------------------

  const CIPHERS: set<string> := {"AES-256-GCM", "AES-128-GCM", "AES-256-CBC", "AES-128-CBC", "CHACHA20-POLY1305"}

  function InQuotes(s: string): string {
    "\"" + s + "\""
  }

  /** A quoted decimal number in a range, without leading zeros. */
  ghost predicate IsNumber(value: string, low: nat, high: nat) {
    exists n: nat :: low <= n <= high && value == InQuotes(Decimal.Print(n))
  }

  /** Every quote and backslash has a backslash before it, and every other backslash is one of those. */
  predicate IsEscaped(s: string) {
    || s == ""
    || (s[0] != '"' && s[0] != '\\' && IsEscaped(s[1..]))
    || (|s| >= 2 && s[0] == '\\' && (s[1] == '"' || s[1] == '\\') && IsEscaped(s[2..]))
  }

  ghost predicate IsCipherList(value: string) {
    exists names: seq<string> :: names != [] && (forall i :: 0 <= i < |names| ==> names[i] in CIPHERS) && value == Join(names, ":")
  }

  ghost predicate IsServerName(value: string) {
    exists name: string, kind: string :: name != "" && IsEscaped(name)
      && kind in {"", " \"subject\"", " \"name\"", " \"name-prefix\""} && value == InQuotes(name) + kind
  }

  /** What an option may be set to. */
  ghost predicate Admits(name: string, value: string) {
    match name
    case "cipher" => value in CIPHERS
    case "data-ciphers" => IsCipherList(value)
    case "data-ciphers-fallback" => value in CIPHERS
    case "verify-x509-name" => IsServerName(value)
    case "auth" => value in {"\"SHA256\"", "\"SHA384\"", "\"SHA512\""}
    case "resolv-retry" => value == "\"infinite\"" || IsNumber(value, 1, 9999)
    case "route-delay" => IsNumber(value, 0, 60)
    case "reneg-sec" => IsNumber(value, 0, 9_999_999)
    case "key-direction" => value in {"\"0\"", "\"1\""}
    case _ => false
  }

  /** A quoted pattern matches the quoted texts it matches bare. */
  lemma QuotedMeans(r: Regex, value: string)
    ensures Matches(Quoted(r), value) <==> exists s :: value == InQuotes(s) && Matches(r, s)
  {
    hide Matches;
    ThenText("\"", Then(r, Text("\"")), value);
    if Matches(Quoted(r), value) {
      var rest := value[1..];
      ThenEnds(r, "\"", rest);
      var s := rest[..|rest| - 1];
      assert value == InQuotes(s);
    }
    if s :| value == InQuotes(s) && Matches(r, s) {
      var rest := value[|"\""|..];
      assert rest == s + "\"";
      assert rest[|rest| - 1..] == "\"" && rest[..|rest| - 1] == s;
      ThenEnds(r, "\"", rest);
    }
  }

  lemma CipherMeans(s: string)
    ensures Matches(CIPHER, s) <==> s in CIPHERS
  {
  }

  lemma OneChar(a: char, b: char, s: string)
    ensures Matches(Chars([Range(a, b)], false), s) <==> |s| == 1 && a <= s[0] <= b
  {
    if |s| == 1 && a <= s[0] <= b {
      assert InRange(s[0], [Range(a, b)][0]);
    }
  }

  /** A nonzero digit and up to `k` more: the numbers below 10^(k+1). */
  lemma NumberMeans(k: nat, s: string)
    ensures Matches(Then(NONZERO, Times(DIGIT, 0, Some(k))), s)
       <==> exists n: nat :: 1 <= n < Decimal.Power10(k + 1) && s == Decimal.Print(n)
  {
    hide InClass, Matches, Decimal.Print, Decimal.Parse, Decimal.Power10;
    DigitsThen(k, s);
    if |s| >= 1 && |s| <= k + 1 && Decimal.AllDigits(s) && s[0] != '0' {
      PrintParse(s);
      ParseBound(s);
      PowerGrows(|s|, k + 1);
    }
    if n: nat :| 1 <= n < Decimal.Power10(k + 1) && s == Decimal.Print(n) {
      Decimal.PrintLength(n, k + 1);
      PrintLeads(n);
    }
  }

  lemma DigitsThen(k: nat, s: string)
    ensures Matches(Then(NONZERO, Times(DIGIT, 0, Some(k))), s) <==> 1 <= |s| <= k + 1 && Decimal.AllDigits(s) && s[0] != '0'
  {
    hide InClass;
    if |s| >= 1 {
      RepeatedClass([Range('0', '9')], 0, Some(k), s[1..]);
      DigitsClass(s[1..]);
      DigitClass(s[0]);
      assert forall j :: 0 <= j <= |s| && Matches(NONZERO, s[..j]) ==> j == 1;
      assert Matches(Then(NONZERO, Times(DIGIT, 0, Some(k))), s) <==> Matches(NONZERO, s[..1]) && Matches(Times(DIGIT, 0, Some(k)), s[1..]);
      assert Decimal.AllDigits(s) <==> Decimal.IsDigit(s[0]) && Decimal.AllDigits(s[1..]);
    }
  }

  lemma {:induction false} ParseBound(s: string)
    requires Decimal.AllDigits(s)
    ensures Decimal.Parse(s) < Decimal.Power10(|s|)
  {
    if s != "" {
      ParseBound(s[..|s| - 1]);
    }
  }

  lemma {:induction false} PowerGrows(a: nat, b: nat)
    requires a <= b
    ensures Decimal.Power10(a) <= Decimal.Power10(b)
  {
    if a < b {
      PowerGrows(a, b - 1);
    }
  }

  lemma Powers()
    ensures Decimal.Power10(2) == 100 && Decimal.Power10(4) == 10_000 && Decimal.Power10(7) == 10_000_000
  {
    assert Decimal.Power10(2) == 100;
    assert Decimal.Power10(4) == 100 * Decimal.Power10(2);
    assert Decimal.Power10(7) == 1000 * Decimal.Power10(4);
  }

  lemma RetryMeans(value: string)
    ensures Matches(Quoted(Or(Text("infinite"), Then(NONZERO, Times(DIGIT, 0, Some(3))))), value)
       <==> value == "\"infinite\"" || IsNumber(value, 1, 9999)
  {
    hide Matches, Decimal.Print, Decimal.Power10;
    var number := Then(NONZERO, Times(DIGIT, 0, Some(3)));
    QuotedMeans(Or(Text("infinite"), number), value);
    forall s ensures Matches(Or(Text("infinite"), number), s) <==> s == "infinite" || exists n: nat :: 1 <= n < 10_000 && s == Decimal.Print(n) {
      OrMeans(Text("infinite"), number, s);
      TextMeans("infinite", s);
      Powers();
      NumberMeans(3, s);
    }
    assert InQuotes("infinite") == "\"infinite\"";
    forall n: nat | 1 <= n <= 9999 ensures Matches(Or(Text("infinite"), number), Decimal.Print(n)) {
    }
  }

  lemma TextMeans(t: string, s: string)
    ensures Matches(Text(t), s) <==> s == t
  {
  }

  lemma PeriodMeans(value: string)
    ensures Matches(Quoted(Or(Text("0"), Then(NONZERO, Times(DIGIT, 0, Some(6))))), value) <==> IsNumber(value, 0, 9_999_999)
  {
    hide Matches, Decimal.Power10;
    var number := Then(NONZERO, Times(DIGIT, 0, Some(6)));
    QuotedMeans(Or(Text("0"), number), value);
    assert Decimal.Print(0) == "0";
    hide Decimal.Print;
    forall s ensures Matches(Or(Text("0"), number), s) <==> exists n: nat :: 0 <= n < 10_000_000 && s == Decimal.Print(n) {
      OrMeans(Text("0"), number, s);
      TextMeans("0", s);
      Powers();
      NumberMeans(6, s);
    }
    forall n: nat | 0 <= n <= 9_999_999 ensures Matches(Or(Text("0"), number), Decimal.Print(n)) {
    }
  }

  /** One digit, or two of which the first is 1 to 5, or sixty. */
  lemma DelayMeans(s: string)
    ensures Matches(Or(DIGIT, Or(Then(Chars([Range('1', '5')], false), DIGIT), Text("60"))), s)
       <==> exists n: nat :: 0 <= n <= 60 && s == Decimal.Print(n)
  {
    hide Matches, Decimal.Print;
    var tens := Chars([Range('1', '5')], false);
    OrMeans(DIGIT, Or(Then(tens, DIGIT), Text("60")), s);
    OrMeans(Then(tens, DIGIT), Text("60"), s);
    TextMeans("60", s);
    OneChar('0', '9', s);
    TwoDigits(s);
    SmallTexts(s);
  }

  lemma TwoDigits(s: string)
    ensures Matches(Then(Chars([Range('1', '5')], false), DIGIT), s) <==> |s| == 2 && '1' <= s[0] <= '5' && Decimal.IsDigit(s[1])
  {
    hide InClass;
    if |s| == 2 {
      OneChar('1', '5', s[..1]);
      OneChar('0', '9', s[1..]);
    }
    forall k | 0 <= k <= |s| && Matches(Chars([Range('1', '5')], false), s[..k]) && Matches(DIGIT, s[k..])
      ensures |s| == 2 && '1' <= s[0] <= '5' && Decimal.IsDigit(s[1])
    {
      OneChar('1', '5', s[..k]);
      OneChar('0', '9', s[k..]);
    }
  }

  lemma SmallTexts(s: string)
    ensures (exists n: nat :: 0 <= n <= 60 && s == Decimal.Print(n)) <==>
      || (|s| == 1 && Decimal.IsDigit(s[0]))
      || (|s| == 2 && '1' <= s[0] <= '5' && Decimal.IsDigit(s[1]))
      || s == "60"
  {
    forall n: nat | n <= 60
      ensures Decimal.Print(n) == if n < 10 then [Decimal.DigitChar(n)] else [Decimal.DigitChar(n / 10), Decimal.DigitChar(n % 10)]
    {
    }
    if |s| == 1 && Decimal.IsDigit(s[0]) {
      assert s == Decimal.Print(Decimal.DigitValue(s[0]));
    }
    if |s| == 2 && '1' <= s[0] <= '5' && Decimal.IsDigit(s[1]) {
      var n := 10 * Decimal.DigitValue(s[0]) + Decimal.DigitValue(s[1]);
      assert n / 10 == Decimal.DigitValue(s[0]) && n % 10 == Decimal.DigitValue(s[1]);
      assert s == Decimal.Print(n);
    }
    assert Decimal.Print(60) == "60";
  }

  lemma RouteDelayMeans(value: string)
    ensures Matches(Quoted(Or(DIGIT, Or(Then(Chars([Range('1', '5')], false), DIGIT), Text("60")))), value) <==> IsNumber(value, 0, 60)
  {
    hide Matches, Decimal.Print;
    var delay := Or(DIGIT, Or(Then(Chars([Range('1', '5')], false), DIGIT), Text("60")));
    QuotedMeans(delay, value);
    forall s ensures Matches(delay, s) <==> exists n: nat :: 0 <= n <= 60 && s == Decimal.Print(n) {
      DelayMeans(s);
    }
    forall n: nat | n <= 60 ensures Matches(delay, Decimal.Print(n)) {
    }
  }

  lemma DirectionMeans(value: string)
    ensures Matches(Quoted(Chars([Range('0', '1')], false)), value) <==> value in {"\"0\"", "\"1\""}
  {
    hide Matches;
    QuotedMeans(Chars([Range('0', '1')], false), value);
    forall s ensures Matches(Chars([Range('0', '1')], false), s) <==> s == "0" || s == "1" {
      OneChar('0', '1', s);
    }
    assert InQuotes("0") == "\"0\"" && InQuotes("1") == "\"1\"";
  }

  lemma AuthMeans(value: string)
    ensures Matches(Quoted(Then(Text("SHA"), Or(Text("256"), Or(Text("384"), Text("512"))))), value)
       <==> value in {"\"SHA256\"", "\"SHA384\"", "\"SHA512\""}
  {
    hide Matches;
    var sizes := Or(Text("256"), Or(Text("384"), Text("512")));
    QuotedMeans(Then(Text("SHA"), sizes), value);
    forall s ensures Matches(Then(Text("SHA"), sizes), s) <==> s == "SHA256" || s == "SHA384" || s == "SHA512" {
      ShaMeans(s);
    }
    assert InQuotes("SHA256") == "\"SHA256\"" && InQuotes("SHA384") == "\"SHA384\"" && InQuotes("SHA512") == "\"SHA512\"";
  }

  lemma ShaMeans(s: string)
    ensures Matches(Then(Text("SHA"), Or(Text("256"), Or(Text("384"), Text("512")))), s) <==> s == "SHA256" || s == "SHA384" || s == "SHA512"
  {
    hide Matches;
    var sizes := Or(Text("256"), Or(Text("384"), Text("512")));
    ThenText("SHA", sizes, s);
    if "SHA" <= s {
      var rest := s[|"SHA"|..];
      assert s == "SHA" + rest;
      OrMeans(Text("256"), Or(Text("384"), Text("512")), rest);
      OrMeans(Text("384"), Text("512"), rest);
      TextMeans("256", rest);
      TextMeans("384", rest);
      TextMeans("512", rest);
      assert "SHA" + "256" == "SHA256" && "SHA" + "384" == "SHA384" && "SHA" + "512" == "SHA512";
    }
    assert "SHA256"[3..] == "256" && "SHA384"[3..] == "384" && "SHA512"[3..] == "512";
  }

  // ---- Cipher lists -------------------------------------------------------------------------------------------------

  const MORE_CIPHERS := Then(Text(":"), CIPHER)

  lemma JoinTail(first: string, rest: seq<string>)
    ensures Join([first] + rest, ":") == if rest == [] then first else first + ":" + Join(rest, ":")
  {
    assert ([first] + rest)[1..] == rest;
  }

  /** Nothing, or a colon and a list. */
  lemma {:induction false} MoreCiphersMean(t: string)
    ensures Repeats(MORE_CIPHERS, 0, None, t) <==> t == "" || (t[0] == ':' && IsCipherList(t[1..]))
    decreases |t|, 1
  {
    hide Matches, CIPHERS;
    if t != "" {
      forall k | 1 <= k <= |t| ensures Matches(MORE_CIPHERS, t[..k]) <==> t[0] == ':' && t[1..k] in CIPHERS {
        ThenText(":", CIPHER, t[..k]);
        CipherMeans(t[1..k]);
        assert t[..k][1..] == t[1..k];
      }
      if Repeats(MORE_CIPHERS, 0, None, t) {
        var k :| 1 <= k <= |t| && Matches(MORE_CIPHERS, t[..k]) && Repeats(MORE_CIPHERS, 0, None, t[k..]);
        assert t[1..][..k - 1] == t[1..k] && t[1..][k - 1..] == t[k..];
        MoreCiphersMean(t[k..]);
        ListFrom(t[1..], k - 1);
      }
      if t[0] == ':' && IsCipherList(t[1..]) {
        var k := ListSplits(t[1..]);
        assert t[1..][..k] == t[1..k + 1] && t[1..][k..] == t[k + 1..];
        MoreCiphersMean(t[k + 1..]);
        assert Matches(MORE_CIPHERS, t[..k + 1]) && Repeats(MORE_CIPHERS, 0, None, t[k + 1..]);
      }
    }
  }

  lemma ListFrom(s: string, k: nat)
    requires k <= |s| && s[..k] in CIPHERS && (s[k..] == "" || (s[k] == ':' && IsCipherList(s[k..][1..])))
    ensures IsCipherList(s)
  {
    hide CIPHERS;
    if s[k..] == "" {
      assert Join([s], ":") == s && s[..k] == s;
    } else {
      var rest: seq<string> :| rest != [] && (forall i :: 0 <= i < |rest| ==> rest[i] in CIPHERS) && s[k..][1..] == Join(rest, ":");
      var names := [s[..k]] + rest;
      JoinTail(s[..k], rest);
      assert s == s[..k] + ":" + Join(rest, ":");
    }
  }

  lemma ListSplits(s: string) returns (k: nat)
    requires IsCipherList(s)
    ensures k <= |s| && s[..k] in CIPHERS && (s[k..] == "" || (s[k] == ':' && IsCipherList(s[k..][1..])))
  {
    hide CIPHERS;
    var names: seq<string> :| names != [] && (forall i :: 0 <= i < |names| ==> names[i] in CIPHERS) && s == Join(names, ":");
    var rest := names[1..];
    assert names == [names[0]] + rest;
    JoinTail(names[0], rest);
    k := |names[0]|;
    if rest != [] {
      assert s[..k] == names[0] && s[k] == ':' && s[k..][1..] == Join(rest, ":");
    } else {
      assert s[..k] == s;
    }
  }

  lemma CipherListMeans(s: string)
    ensures Matches(Then(CIPHER, Times(MORE_CIPHERS, 0, None)), s) <==> IsCipherList(s)
  {
    hide CIPHERS, IsCipherList;
    if Matches(Then(CIPHER, Times(MORE_CIPHERS, 0, None)), s) {
      var k :| 0 <= k <= |s| && Matches(CIPHER, s[..k]) && Matches(Times(MORE_CIPHERS, 0, None), s[k..]);
      hide Matches;
      CipherMeans(s[..k]);
      MoreCiphersMean(s[k..]);
      ListFrom(s, k);
    }
    if IsCipherList(s) {
      var k := ListSplits(s);
      CipherMeans(s[..k]);
      MoreCiphersMean(s[k..]);
    }
  }

  // ---- Server names ---------------------------------------------------------------------------------------------------

  /** One character that needs no backslash, or a backslash and one that does. */
  lemma QuotedCharMeans(s: string)
    ensures Matches(QUOTED_CHAR, s) <==>
      || (|s| == 1 && s[0] != '"' && s[0] != '\\')
      || (|s| == 2 && s[0] == '\\' && (s[1] == '"' || s[1] == '\\'))
  {
    var special := Chars([Range('"', '"'), Range('\\', '\\')], false);
    hide InClass;
    OrMeans(Chars([Range('"', '"'), Range('\\', '\\')], true), Then(Text("\\"), special), s);
    ThenText("\\", special, s);
    if |s| >= 1 {
      SpecialClass(s[0]);
      SpecialClass(s[|s| - 1]);
    }
  }

  lemma SpecialClass(c: char)
    ensures InClass(c, [Range('"', '"'), Range('\\', '\\')]) <==> c == '"' || c == '\\'
  {
    var special := [Range('"', '"'), Range('\\', '\\')];
    if c == '"' {
      assert InRange(c, special[0]);
    }
    if c == '\\' {
      assert InRange(c, special[1]);
    }
  }

  lemma {:induction false} EscapedMeans(low: nat, s: string)
    requires low <= 1
    ensures Repeats(QUOTED_CHAR, low, None, s) <==> IsEscaped(s) && (low == 1 ==> s != "")
    decreases |s|
  {
    hide Matches;
    forall k | 0 <= k <= |s| ensures Matches(QUOTED_CHAR, s[..k]) <==>
      (k == 1 && s[0] != '"' && s[0] != '\\') || (k == 2 && s[0] == '\\' && (s[1] == '"' || s[1] == '\\'))
    {
      QuotedCharMeans(s[..k]);
    }
    if s == "" {
      assert s[..0] == s;
    } else {
      EscapedMeans(0, s[1..]);
      if |s| >= 2 {
        EscapedMeans(0, s[2..]);
      }
      assert Repeats(QUOTED_CHAR, low, None, s) <==>
        exists k :: 1 <= k <= |s| && Matches(QUOTED_CHAR, s[..k]) && Repeats(QUOTED_CHAR, 0, None, s[k..]);
      if IsEscaped(s) {
        var k := if s[0] == '\\' then 2 else 1;
        assert Matches(QUOTED_CHAR, s[..k]) && Repeats(QUOTED_CHAR, 0, None, s[k..]);
      }
    }
  }

  const KIND := Or(Text("subject"), Or(Text("name"), Text("name-prefix")))

  lemma KindMeans(t: string)
    ensures Matches(Optional(Then(Text(" "), Quoted(KIND))), t)
       <==> t in {"", " \"subject\"", " \"name\"", " \"name-prefix\""}
  {
    hide Matches;
    OptionalMeans(Then(Text(" "), Quoted(KIND)), t);
    ThenText(" ", Quoted(KIND), t);
    if " " <= t {
      var rest := t[|" "|..];
      assert t == " " + rest;
      QuotedMeans(KIND, rest);
      forall s ensures Matches(KIND, s) <==> s == "subject" || s == "name" || s == "name-prefix" {
        OrMeans(Text("subject"), Or(Text("name"), Text("name-prefix")), s);
        OrMeans(Text("name"), Text("name-prefix"), s);
        TextMeans("subject", s);
        TextMeans("name", s);
        TextMeans("name-prefix", s);
      }
      KindTexts(rest);
    }
    assert " " <= " \"subject\"" && " " <= " \"name\"" && " " <= " \"name-prefix\"";
  }

  lemma KindTexts(rest: string)
    ensures rest == InQuotes("subject") <==> " " + rest == " \"subject\""
    ensures rest == InQuotes("name") <==> " " + rest == " \"name\""
    ensures rest == InQuotes("name-prefix") <==> " " + rest == " \"name-prefix\""
  {
    SameRest(rest, InQuotes("subject"));
    SameRest(rest, InQuotes("name"));
    SameRest(rest, InQuotes("name-prefix"));
  }

  lemma SameRest(a: string, b: string)
    ensures a == b <==> " " + a == " " + b
  {
    assert (" " + a)[1..] == a && (" " + b)[1..] == b;
  }

  lemma ServerNameMeans(value: string)
    ensures Matches(Then(Quoted(Times(QUOTED_CHAR, 1, None)), Optional(Then(Text(" "), Quoted(KIND)))), value)
       <==> IsServerName(value)
  {
    hide Matches, Quoted, IsEscaped, Optional;
    var name, kind := Quoted(Times(QUOTED_CHAR, 1, None)), Optional(Then(Text(" "), Quoted(KIND)));
    if Matches(Then(name, kind), value) {
      var k := ThenSplit(name, kind, value);
      var s := NameInQuotes(value[..k]);
      KindMeans(value[k..]);
      assert value == value[..k] + value[k..];
    }
    if IsServerName(value) {
      var s: string, t: string :| s != "" && IsEscaped(s)
        && t in {"", " \"subject\"", " \"name\"", " \"name-prefix\""} && value == InQuotes(s) + t;
      NameMatches(s);
      KindMeans(t);
      MatchesThen(name, kind, InQuotes(s), t);
    }
  }

  lemma NameInQuotes(value: string) returns (s: string)
    requires Matches(Quoted(Times(QUOTED_CHAR, 1, None)), value)
    ensures value == InQuotes(s) && s != "" && IsEscaped(s)
  {
    QuotedMeans(Times(QUOTED_CHAR, 1, None), value);
    s :| value == InQuotes(s) && Matches(Times(QUOTED_CHAR, 1, None), s);
    EscapedMeans(1, s);
  }

  lemma NameMatches(s: string)
    requires s != "" && IsEscaped(s)
    ensures Matches(Quoted(Times(QUOTED_CHAR, 1, None)), InQuotes(s))
  {
    EscapedMeans(1, s);
    assert Matches(Times(QUOTED_CHAR, 1, None), s);
    QuotedMeans(Times(QUOTED_CHAR, 1, None), InQuotes(s));
  }

  // ---- All of them -------------------------------------------------------------------------------------------------------

  /** An option's pattern accepts exactly the values named for it. */
  lemma OptionMeans(i: nat, value: string)
    requires i < |OPTIONAL|
    ensures Matches(OPTIONAL[i].value, value) <==> Admits(OPTIONAL[i].name, value)
  {
    hide Matches, Repeats, CIPHER, QUOTED_CHAR, IsNumber, IsServerName, IsCipherList;
    CipherMeans(value);
    CipherListMeans(value);
    ServerNameMeans(value);
    AuthMeans(value);
    RetryMeans(value);
    RouteDelayMeans(value);
    PeriodMeans(value);
    DirectionMeans(value);
  }

  /** A line sets an option exactly when it is the option's name, a space, and a value it admits. */
  ghost predicate SetsOption(name: string, line: string) {
    exists value :: line == name + " " + value && Admits(name, value)
  }

  lemma SetsMeans(name: string, line: string)
    ensures Sets(name, line) <==> SetsOption(name, line)
  {
    hide Matches, Admits;
    if Sets(name, line) {
      var i, value :| 0 <= i < |OPTIONAL| && OPTIONAL[i].name == name && line == name + " " + value && Matches(OPTIONAL[i].value, value);
      OptionMeans(i, value);
    }
    if value :| line == name + " " + value && Admits(name, value) {
      var i := OptionNamed(name, value);
      OptionMeans(i, value);
    }
  }

  lemma OptionNamed(name: string, value: string) returns (i: nat)
    requires Admits(name, value)
    ensures i < |OPTIONAL| && OPTIONAL[i].name == name
  {
    hide IsNumber, IsServerName, IsCipherList;
    i := match name
      case "cipher" => 0
      case "data-ciphers" => 1
      case "data-ciphers-fallback" => 2
      case "verify-x509-name" => 3
      case "auth" => 4
      case "resolv-retry" => 5
      case "route-delay" => 6
      case "reneg-sec" => 7
      case _ => 8;
  }

  lemma RemoteInWords(line: string)
    ensures IsRemote(line) <==> exists server: string, port: nat ::
      line == "remote " + server + " " + Decimal.Print(port) && IsHostName(server) && 1 <= port <= 65535
  {
    hide IsRemote, IsHost, IsHostName, Decimal.Print;
    RemoteMeans(line);
    if server: string, port: nat :| line == RemoteLine(server, port) && IsHost(server) && 1 <= port <= 65535 {
      HostInWords(server);
      assert line == "remote " + server + " " + Decimal.Print(port);
    }
    if server: string, port: nat :| line == "remote " + server + " " + Decimal.Print(port) && IsHostName(server) && 1 <= port <= 65535 {
      HostInWords(server);
      assert line == RemoteLine(server, port);
    }
  }

  /** A line is a directive exactly in one of three ways, and is remembered under the matching name: it names a
      server and a port, it is one of the fixed lines, or it sets an option to a value that the option admits. */
  lemma SlotMeans(line: string, host: string, name: string)
    ensures Slot(line, host) == Some(name) <==>
      || (name == "remote" && exists server: string, port: nat ::
            line == "remote " + server + " " + Decimal.Print(port) && IsHostName(server) && 1 <= port <= 65535)
      || (name == line && IsFixed(line, host))
      || SetsOption(name, line)
  {
    hide Slot, IsRemote, Exact, IsFixed, Sets, SetsOption;
    SlotCases(line, host, name);
    RemoteInWords(line);
    FixedIsExact(line, host);
    SetsMeans(name, line);
  }
}
