/** Cells as JSON: what `normalize_value` writes, and what a reader of the response gets back. */
module QueryCells {
  import opened Basics
  import opened QueryRequest
  import opened QuerySql
  import J = JsonText

  // ---- Writing -----------------------------------------------------------------------------------

  function Base64Char(n: nat): char
    requires n < 64
  {
    if n < 26 then 'A' + n as char
    else if n < 52 then 'a' + (n - 26) as char
    else if n < 62 then '0' + (n - 52) as char
    else if n == 62 then '+' else '/'
  }

  /** Four characters for a 24-bit number. */
  function Group(n: nat): (r: string)
    requires n < 0x100_0000
    ensures |r| == 4
  {
    [Base64Char(n / 262144), Base64Char(n / 4096 % 64), Base64Char(n / 64 % 64), Base64Char(n % 64)]
  }

  function Number(a: byte, b: byte, c: byte): (n: nat)
    ensures n < 0x100_0000
  {
    a as nat * 65536 + b as nat * 256 + c as nat
  }

  /** `base64.b64encode`: the last group is filled up with zero bits and padded. */
  function Base64(bytes: seq<byte>): string {
    if bytes == [] then ""
    else if |bytes| == 1 then Group(Number(bytes[0], 0, 0))[..2] + "=="
    else if |bytes| == 2 then Group(Number(bytes[0], bytes[1], 0))[..3] + "="
    else Group(Number(bytes[0], bytes[1], bytes[2])) + Base64(bytes[3..])
  }

  /** `normalize_value`: the JSON form of a cell, and whether something was cut off. */
  function NormalizeCell(cell: Cell): (J.Json, bool) {
    match cell
    case Null => (J.Null, false)
    case Bool(b) => (J.Bool(b), false)
    case Int(i) => (J.Num(i), false)
    case Float(text, finite) => (if finite then J.Float(text, true) else J.Str(text), false)
    case Text(s) => (J.Str(Take(s, MAX_VALUE_TEXT)), |s| > MAX_VALUE_TEXT)
    case Bytes(bytes) =>
      (J.Obj([J.Field("encoding", J.Str("base64")), J.Field("data", J.Str(Base64(Take(bytes, MAX_VALUE_TEXT))))]),
       |bytes| > MAX_VALUE_TEXT)
    case Printed(text) => (J.Str(text), false)
    case Foreign(text) => (J.Str(Take(text, MAX_VALUE_TEXT)), |text| > MAX_VALUE_TEXT)
  }

  // ---- Reading -----------------------------------------------------------------------------------

  /** The place of a character in the alphabet of RFC 4648, section 4. */
  function Sextet(c: char): Option<nat> {
    if 'A' <= c <= 'Z' then Some((c - 'A') as nat)
    else if 'a' <= c <= 'z' then Some((c - 'a') as nat + 26)
    else if '0' <= c <= '9' then Some((c - '0') as nat + 52)
    else if c == '+' then Some(62)
    else if c == '/' then Some(63)
    else None
  }

  /** The text's value as a number in base 64; padding counts as zero. */
  function GroupValue(group: string): Option<nat>
    requires |group| == 4
  {
    var digit := (c: char) => if c == '=' then Some(0) else Sextet(c);
    var a, b, c, d := digit(group[0]), digit(group[1]), digit(group[2]), digit(group[3]);
    if a.None? || b.None? || c.None? || d.None? then None
    else Some(((a.value * 64 + b.value) * 64 + c.value) * 64 + d.value)
  }

  /** The three bytes of a 24-bit number, most significant first. */
  function ThreeBytes(n: nat): (r: seq<byte>)
    ensures |r| == 3
  {
    [(n / 65536 % 256) as byte, (n / 256 % 256) as byte, (n % 256) as byte]
  }

  /** Four characters give three bytes; each padding character at the end takes one of them back. */
  function Unbase64(s: string): Option<seq<byte>> {
    if s == "" then Some([]) else
    if |s| < 4 then None else
    var padding := if s[2..4] == "==" then 2 else if s[3] == '=' then 1 else 0;
    match (GroupValue(s[..4]), Unbase64(s[4..]))
    case (Some(n), Some(rest)) =>
      if padding == 0 then Some(ThreeBytes(n) + rest)
      else if s[4..] == "" then Some(ThreeBytes(n)[..3 - padding])
      else None
    case _ => None
  }

  /** The value a JSON text stands for; None where no cell is written that way. */
  function ReadCell(value: J.Json): Option<Cell> {
    match value
    case Null => Some(Null)
    case Bool(b) => Some(Bool(b))
    case Num(n) => Some(Int(n))
    case Float(text, finite) => Some(Float(text, finite))
    case Str(s) => Some(Text(s))
    case Arr(_) => None
    case Obj(fields) =>
      if |fields| == 2 && fields[0] == J.Field("encoding", J.Str("base64")) && fields[1].name == "data" && fields[1].value.Str?
      then match Unbase64(fields[1].value.s) { case Some(bytes) => Some(Bytes(bytes)) case None => None }
      else None
  }

  /** What a reader may see of a stored cell: at most 4096 characters or bytes, and a text in place of
      everything JSON has no type for. */
  function Shown(cell: Cell): Cell {
    match cell
    case Text(s) => Text(Take(s, 4096))
    case Bytes(bytes) => Bytes(Take(bytes, 4096))
    case Foreign(text) => Text(Take(text, 4096))
    case Printed(text) => Text(text)
    case Float(text, finite) => if finite then cell else Text(text)
    case _ => cell
  }

  predicate TooLong(cell: Cell) {
    match cell
    case Text(s) => |s| > 4096
    case Bytes(bytes) => |bytes| > 4096
    case Foreign(text) => |text| > 4096
    case _ => false
  }

  // ---- The reader gets back what was stored --------------------------------------------------------

  lemma SextetOfChar(n: nat)
    requires n < 64
    ensures Sextet(Base64Char(n)) == Some(n) && Base64Char(n) != '='
  {
  }

  lemma SplitDigits(n: nat)
    requires n < 0x100_0000
    ensures n / 262144 < 64 && ((n / 262144 * 64 + n / 4096 % 64) * 64 + n / 64 % 64) * 64 + n % 64 == n
  {
    var high, middle := n / 4096, n / 64;
    assert high == n / 262144 * 64 + high % 64;
    assert middle == high * 64 + middle % 64;
    assert n == middle * 64 + n % 64;
  }

  /** A group, and a group whose last bits are zero and whose last characters are padding, has the value
      it was made from. */
  lemma GroupReads(n: nat)
    requires n < 0x100_0000
    ensures GroupValue(Group(n)) == Some(n) && Group(n)[2] != '=' && Group(n)[3] != '='
    ensures n % 64 == 0 ==> GroupValue(Group(n)[..3] + "=") == Some(n)
    ensures n % 4096 == 0 ==> GroupValue(Group(n)[..2] + "==") == Some(n)
  {
    hide Base64Char, Sextet;
    var a, b, c, d := n / 262144, n / 4096 % 64, n / 64 % 64, n % 64;
    SplitDigits(n);
    SextetOfChar(a);
    SextetOfChar(b);
    SextetOfChar(c);
    SextetOfChar(d);
    assert n % 4096 == 0 ==> c == 0 && d == 0;
  }

  lemma SmallMultiple(k: int, m: nat)
    requires -(m as int) < k * m < m
    ensures k == 0
  {
    if k >= 1 {
      MultipleGrows(1, k, m);
    } else if k <= -1 {
      MultipleGrows(k, -1, m);
    }
  }

  lemma MultipleGrows(a: int, b: int, m: nat)
    requires a <= b
    ensures a * m <= b * m
  {
    assert (b - a) * m >= 0;
  }

  lemma DivideExactly(n: nat, quotient: nat, remainder: nat, m: nat)
    requires m > 0 && n == quotient * m + remainder && remainder < m
    ensures n / m == quotient && n % m == remainder
  {
    var q, r := n / m, n % m;
    assert n == q * m + r;
    assert (q - quotient) * m == remainder - r;
    SmallMultiple(q - quotient, m);
  }

  lemma NumberReads(a: byte, b: byte, c: byte)
    ensures ThreeBytes(Number(a, b, c)) == [a, b, c]
    ensures c == 0 ==> Number(a, b, c) % 64 == 0
    ensures b == 0 && c == 0 ==> Number(a, b, c) % 4096 == 0
  {
    var n, x, y, z := Number(a, b, c), a as nat, b as nat, c as nat;
    DivideExactly(n, x, y * 256 + z, 65536);
    DivideExactly(n, x * 256 + y, z, 256);
    DivideExactly(x * 256 + y, x, y, 256);
    if z == 0 {
      DivideExactly(n, x * 1024 + y * 4, 0, 64);
    }
    if y == 0 && z == 0 {
      DivideExactly(n, x * 16, 0, 4096);
    }
  }

  lemma ReadGroup(group: string, more: string, n: nat, rest: seq<byte>)
    requires |group| == 4 && group[3] != '=' && GroupValue(group) == Some(n) && Unbase64(more) == Some(rest)
    ensures Unbase64(group + more) == Some(ThreeBytes(n) + rest)
  {
    hide GroupValue, ThreeBytes;
    var text := group + more;
    assert text[..4] == group && text[4..] == more && text[2..4][1] == group[3];
  }

  lemma ReadPadded(group: string, n: nat)
    requires |group| == 4 && group[3] == '=' && GroupValue(group) == Some(n)
    ensures Unbase64(group) == Some(ThreeBytes(n)[..if group[2] == '=' then 1 else 2])
  {
    hide GroupValue, ThreeBytes;
    assert group[..4] == group && group[4..] == "" && group[2..4] == [group[2], group[3]];
  }

  /** Decoding undoes encoding, on every byte string. */
  lemma {:induction false} Base64RoundTrip(bytes: seq<byte>)
    ensures Unbase64(Base64(bytes)) == Some(bytes)
  {
    hide GroupValue, ThreeBytes, Group, Number, Unbase64;
    if bytes == [] {
      NothingToRead();
    } else {
      var a, b, c := bytes[0], if |bytes| > 1 then bytes[1] else 0, if |bytes| > 2 then bytes[2] else 0;
      var n := Number(a, b, c);
      NumberReads(a, b, c);
      GroupReads(n);
      if |bytes| == 1 {
        ReadPadded(Group(n)[..2] + "==", n);
        assert [a, b, c][..1] == bytes;
      } else if |bytes| == 2 {
        ReadPadded(Group(n)[..3] + "=", n);
        assert [a, b, c][..2] == bytes;
      } else {
        Base64RoundTrip(bytes[3..]);
        ReadGroup(Group(n), Base64(bytes[3..]), n, bytes[3..]);
        assert bytes == [a, b, c] + bytes[3..];
      }
    }
  }

  lemma NothingToRead()
    ensures Unbase64("") == Some([])
  {
  }

  /** Whatever the driver returned, a reader of the JSON gets the stored value back, cut to 4096
      characters or bytes, and the flag says exactly whether something was cut. */
  lemma CellIsShown(cell: Cell)
    ensures ReadCell(NormalizeCell(cell).0) == Some(Shown(cell))
    ensures NormalizeCell(cell).1 <==> TooLong(cell)
  {
    hide Base64, Unbase64;
    if cell.Bytes? {
      Base64RoundTrip(Take(cell.bytes, MAX_VALUE_TEXT));
    }
  }
}
