/** Octet strings, their hexdumps, and the UTF-8 form of text (section 3 of RFC 3629). */
module Octets {
  import opened Wrappers

  type Octet = n: int | 0 <= n < 256

  // ----- UTF-8

  function Utf8Char(c: char): (r: seq<Octet>)
    ensures 1 <= |r| <= 4
    ensures c as int < 128 ==> r == [c as int]
  {
    var n := c as int;
    if n < 0x80 then [n]
    else if n < 0x800 then [0xC0 + n / 64, 0x80 + n % 64]
    else if n < 0x10000 then [0xE0 + n / 4096, 0x80 + n / 64 % 64, 0x80 + n % 64]
    else [0xF0 + n / 262144, 0x80 + n / 4096 % 64, 0x80 + n / 64 % 64, 0x80 + n % 64]
  }

  /** s.encode() */
  function Utf8(s: string): (r: seq<Octet>)
    ensures |s| <= |r| <= 4 * |s|
  {
    if s == "" then [] else Utf8Char(s[0]) + Utf8(s[1..])
  }

  lemma Utf8Cons(c: char, rest: string)
    ensures Utf8([c] + rest) == Utf8Char(c) + Utf8(rest)
  {
    assert ([c] + rest)[1..] == rest;
  }

  predicate Tail(o: Octet) {
    0x80 <= o < 0xC0
  }

  function Bits(o: Octet, marker: int): int {
    o as int - marker
  }

  lemma Split64(n: nat)
    ensures n == 64 * (n / 64) + n % 64
    ensures n / 64 == 64 * (n / 4096) + n / 64 % 64
    ensures n / 4096 == 64 * (n / 262144) + n / 4096 % 64
  {
    assert n / 64 / 64 == n / 4096 && n / 4096 / 64 == n / 262144;
  }

  /** The forms of the octets of a character, by how many they are: the number their bits spell is its own. */
  predicate Form(r: seq<Octet>, n: int) {
    if n < 0x80 then r == [n]
    else if n < 0x800 then
      |r| == 2 && 0xC2 <= r[0] < 0xE0 && Tail(r[1]) && 64 * Bits(r[0], 0xC0) + Bits(r[1], 0x80) == n
    else if n < 0x10000 then
      |r| == 3 && 0xE0 <= r[0] < 0xF0 && Tail(r[1]) && Tail(r[2])
      && 4096 * Bits(r[0], 0xE0) + 64 * Bits(r[1], 0x80) + Bits(r[2], 0x80) == n
    else
      |r| == 4 && 0xF0 <= r[0] < 0xF5 && Tail(r[1]) && Tail(r[2]) && Tail(r[3])
      && 262144 * Bits(r[0], 0xF0) + 4096 * Bits(r[1], 0x80) + 64 * Bits(r[2], 0x80) + Bits(r[3], 0x80) == n
  }

  lemma Utf8Form(c: char)
    ensures Form(Utf8Char(c), c as int)
  {
    Split64(c as int);
  }

  /** A character number that its octets may spell: a scalar value, not spelled longer than it need be. */
  predicate Spelled(n: int, least: int) {
    least <= n < 0x110000 && !(0xD800 <= n < 0xE000)
  }

  /** The character at the front of some octets, and how many of them spell it. */
  function FirstChar(b: seq<Octet>): (r: Option<(char, nat)>)
    ensures r.Some? ==> 0 < r.value.1 <= |b|
  {
    if |b| >= 1 && b[0] < 0x80 then Some((b[0] as char, 1))
    else if |b| >= 2 && 0xC0 <= b[0] < 0xE0 && Tail(b[1]) then
      var n := 64 * Bits(b[0], 0xC0) + Bits(b[1], 0x80);
      if Spelled(n, 0x80) then Some((n as char, 2)) else None
    else if |b| >= 3 && 0xE0 <= b[0] < 0xF0 && Tail(b[1]) && Tail(b[2]) then
      var n := 4096 * Bits(b[0], 0xE0) + 64 * Bits(b[1], 0x80) + Bits(b[2], 0x80);
      if Spelled(n, 0x800) then Some((n as char, 3)) else None
    else if |b| >= 4 && 0xF0 <= b[0] < 0xF8 && Tail(b[1]) && Tail(b[2]) && Tail(b[3]) then
      var n := 262144 * Bits(b[0], 0xF0) + 4096 * Bits(b[1], 0x80) + 64 * Bits(b[2], 0x80) + Bits(b[3], 0x80);
      if Spelled(n, 0x10000) then Some((n as char, 4)) else None
    else None
  }

  /** Reading octets as text, by the bits alone: None where they are no text. */
  function DecodeUtf8(b: seq<Octet>): Option<string> {
    if b == [] then Some("")
    else
      match FirstChar(b)
      case None => None
      case Some((c, length)) =>
        match DecodeUtf8(b[length..])
        case None => None
        case Some(rest) => Some([c] + rest)
  }

  lemma FirstCharIs(c: char, rest: seq<Octet>)
    ensures FirstChar(Utf8Char(c) + rest) == Some((c, |Utf8Char(c)|))
  {
    Utf8Form(c);
    var r, b := Utf8Char(c), Utf8Char(c) + rest;
    assert b[0] == r[0] && (|r| > 1 ==> b[1] == r[1]) && (|r| > 2 ==> b[2] == r[2]) && (|r| > 3 ==> b[3] == r[3]);
  }

  lemma Digits64(w: nat, x: nat, y: nat, z: nat)
    requires x < 64 && y < 64 && z < 64
    ensures var n := 262144 * w + 4096 * x + 64 * y + z;
      n / 262144 == w && n / 4096 % 64 == x && n / 64 % 64 == y && n % 64 == z
  {
    var n := 262144 * w + 4096 * x + 64 * y + z;
    assert n / 64 == 4096 * w + 64 * x + y;
    assert n / 4096 == 64 * w + x;
  }

  lemma ThreeSpell(b: seq<Octet>, c: char)
    requires FirstChar(b) == Some((c, 3))
    ensures Utf8Char(c) == b[..3]
  {
    Digits64(0, Bits(b[0], 0xE0), Bits(b[1], 0x80), Bits(b[2], 0x80));
  }

  lemma FourSpell(b: seq<Octet>, c: char)
    requires FirstChar(b) == Some((c, 4))
    ensures Utf8Char(c) == b[..4]
  {
    Digits64(Bits(b[0], 0xF0), Bits(b[1], 0x80), Bits(b[2], 0x80), Bits(b[3], 0x80));
  }

  lemma FirstCharSpells(b: seq<Octet>, c: char, length: nat)
    requires FirstChar(b) == Some((c, length))
    ensures Utf8Char(c) == b[..length]
  {
    if length == 2 {
      Digits64(0, 0, Bits(b[0], 0xC0), Bits(b[1], 0x80));
    } else if length == 3 {
      ThreeSpell(b, c);
    } else if length == 4 {
      FourSpell(b, c);
    }
  }

  /** What encodes text is read back as that text, and nothing else is: the octets of a text are well formed,
      and no two texts have the same. */
  lemma {:induction false} DecodesExactly(b: seq<Octet>, s: string)
    ensures DecodeUtf8(b) == Some(s) <==> Utf8(s) == b
    decreases |s|
  {
    if s != "" {
      FirstCharIs(s[0], Utf8(s[1..]));
      assert s == [s[0]] + s[1..];
      assert (Utf8Char(s[0]) + Utf8(s[1..]))[|Utf8Char(s[0])|..] == Utf8(s[1..]);
      DecodesExactly(Utf8(s[1..]), s[1..]);
    }
    if b != [] && DecodeUtf8(b) == Some(s) {
      var (c, length) := FirstChar(b).value;
      FirstCharSpells(b, c, length);
      assert s[1..] == DecodeUtf8(b[length..]).value;
      DecodesExactly(b[length..], s[1..]);
      assert b == b[..length] + b[length..];
    }
  }

  lemma Utf8Injective(s: string, t: string)
    requires Utf8(s) == Utf8(t)
    ensures s == t
  {
    DecodesExactly(Utf8(s), s);
    DecodesExactly(Utf8(s), t);
  }

  // ----- hexadecimal

  predicate IsHexDigit(c: char) {
    '0' <= c <= '9' || 'a' <= c <= 'f' || 'A' <= c <= 'F'
  }

  function HexValue(c: char): (v: nat)
    requires IsHexDigit(c)
    ensures v < 16
  {
    if '0' <= c <= '9' then c as int - '0' as int
    else if 'a' <= c <= 'f' then c as int - 'a' as int + 10
    else c as int - 'A' as int + 10
  }

  /** The lower-case hexadecimal digit of a value. */
  function HexDigit(v: nat): (c: char)
    requires v < 16
    ensures IsHexDigit(c) && HexValue(c) == v
    ensures !('A' <= c <= 'F')
  {
    if v < 10 then '0' + v as char else 'a' + (v - 10) as char
  }

  /** The sixteen digits in either case, each at its value. */
  lemma DigitsAre(c: char, v: nat)
    ensures IsHexDigit(c) <==> c in "0123456789abcdef" || c in "0123456789ABCDEF"
    ensures v < 16 ==> HexDigit(v) == "0123456789abcdef"[v]
    ensures v < 16 && IsHexDigit(c) ==>
      (HexValue(c) == v <==> c == "0123456789abcdef"[v] || c == "0123456789ABCDEF"[v])
  {
    var lower, upper := "0123456789abcdef", "0123456789ABCDEF";
    if IsHexDigit(c) {
      assert c == lower[HexValue(c)] || c == upper[HexValue(c)];
    }
  }

  predicate AllHex(s: string) {
    forall i | 0 <= i < |s| :: IsHexDigit(s[i])
  }

  /** b.hex() */
  function Hex(b: seq<Octet>): (s: string)
    ensures |s| == 2 * |b| && AllHex(s)
  {
    if b == [] then "" else [HexDigit(b[0] / 16), HexDigit(b[0] % 16)] + Hex(b[1..])
  }

  /** bytes.fromhex(s), on the strings the callers let through. */
  function FromHex(s: string): (b: seq<Octet>)
    requires |s| % 2 == 0 && AllHex(s)
    ensures 2 * |b| == |s|
  {
    if s == "" then [] else [16 * HexValue(s[0]) + HexValue(s[1])] + FromHex(s[2..])
  }

  /** Two digits for each octet, the higher four bits first. */
  lemma {:induction false} HexAt(b: seq<Octet>, i: nat)
    requires i < |b|
    ensures 16 * HexValue(Hex(b)[2 * i]) + HexValue(Hex(b)[2 * i + 1]) == b[i]
    ensures !('A' <= Hex(b)[2 * i] <= 'F') && !('A' <= Hex(b)[2 * i + 1] <= 'F')
  {
    if i > 0 {
      HexAt(b[1..], i - 1);
      assert Hex(b)[2..] == Hex(b[1..]);
      assert Hex(b)[2 * i] == Hex(b[1..])[2 * (i - 1)] && Hex(b)[2 * i + 1] == Hex(b[1..])[2 * (i - 1) + 1];
    }
  }

  lemma {:induction false} FromHexOfHex(b: seq<Octet>)
    ensures FromHex(Hex(b)) == b
  {
    if b != [] {
      FromHexOfHex(b[1..]);
      assert Hex(b)[2..] == Hex(b[1..]);
      assert b == [b[0]] + b[1..];
    }
  }

  /** The digit in lower case. */
  function LowerDigit(c: char): (d: char)
    requires IsHexDigit(c)
    ensures IsHexDigit(d) && !('A' <= d <= 'F') && HexValue(d) == HexValue(c)
  {
    if 'A' <= c <= 'F' then 'a' + (c - 'A') else c
  }

  function LowerHex(s: string): (t: string)
    requires AllHex(s)
    ensures |t| == |s| && forall i | 0 <= i < |s| :: t[i] == LowerDigit(s[i])
  {
    if s == "" then "" else [LowerDigit(s[0])] + LowerHex(s[1..])
  }

  /** Two digits and the octet they spell. */
  lemma PairOfDigits(high: char, low: char)
    requires IsHexDigit(high) && IsHexDigit(low)
    ensures var o := 16 * HexValue(high) + HexValue(low);
      HexDigit(o / 16) == LowerDigit(high) && HexDigit(o % 16) == LowerDigit(low)
  {
    var h, l := HexValue(high), HexValue(low);
    assert (16 * h + l) / 16 == h && (16 * h + l) % 16 == l;
  }

  /** A hexdump in either case reads as the octets whose own hexdump it is in lower case. */
  lemma {:induction false} HexOfFromHex(s: string)
    requires |s| % 2 == 0 && AllHex(s)
    ensures Hex(FromHex(s)) == LowerHex(s)
  {
    if s != "" {
      var o, rest := 16 * HexValue(s[0]) + HexValue(s[1]), FromHex(s[2..]);
      HexOfFromHex(s[2..]);
      PairOfDigits(s[0], s[1]);
      assert ([o] + rest)[1..] == rest;
      assert s[1..][1..] == s[2..];
      assert LowerHex(s) == [LowerDigit(s[0])] + ([LowerDigit(s[1])] + LowerHex(s[2..]));
    }
  }
}
