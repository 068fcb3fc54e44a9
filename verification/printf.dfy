/** wpa_ctrl/ssid.py: the printf-style escaping the daemon applies to octet strings on their way out. */
module Printf {
  import opened Octets
  import opened Text
  import opened Wrappers

  predicate IsOctalDigit(c: char) {
    '0' <= c <= '7'
  }

  /** The single-character escapes, the backslash itself not counted. */
  function NamedEscape(c: char): (o: Option<Octet>)
    ensures o.Some? ==> !IsOctalDigit(c) && c != 'x' && c as int < 128
  {
    match c
    case '\\' => Some(92)
    case '\"' => Some(34)
    case 'n' => Some(10)
    case 'r' => Some(13)
    case 't' => Some(9)
    case 'e' => Some(27)
    case _ => None
  }

  // ----- the meaning of escaped text

  /** How many of the first limit characters of s are hexadecimal digits with nothing else before them. */
  function HexRun(s: string, limit: nat): (n: nat)
    ensures n <= limit && n <= |s| && AllHex(s[..n])
    ensures n < limit && n < |s| ==> !IsHexDigit(s[n])
  {
    if limit == 0 || s == "" || !IsHexDigit(s[0]) then 0 else 1 + HexRun(s[1..], limit - 1)
  }

  predicate AllOctal(s: string) {
    forall i | 0 <= i < |s| :: IsOctalDigit(s[i])
  }

  function OctalRun(s: string, limit: nat): (n: nat)
    ensures n <= limit && n <= |s| && AllOctal(s[..n])
    ensures n < limit && n < |s| ==> !IsOctalDigit(s[n])
  {
    if limit == 0 || s == "" || !IsOctalDigit(s[0]) then 0 else 1 + OctalRun(s[1..], limit - 1)
  }

  /** int(s, 16) on digits. */
  function HexNumber(s: string): (v: nat)
    requires AllHex(s)
    ensures |s| == 1 ==> v < 16
    ensures |s| == 2 ==> v < 256
  {
    if s == "" then 0 else 16 * HexNumber(s[..|s| - 1]) + HexValue(s[|s| - 1])
  }

  function OctalNumber(s: string): nat
    requires AllOctal(s)
  {
    if s == "" then 0 else 8 * OctalNumber(s[..|s| - 1]) + (s[|s| - 1] as int - '0' as int)
  }

  /** One unit of escaped text: the octets it stands for and the number of characters it takes. */
  datatype Unit = Unit(octets: seq<Octet>, length: nat)

  function FirstUnit(text: string): (u: Unit)
    requires text != ""
    ensures 1 <= u.length <= |text|
    ensures |u.octets| <= 4 * u.length
  {
    if text[0] != '\\' then Unit(Utf8Char(text[0]), 1)
    else if |text| == 1 then Unit([], 1)
    else if NamedEscape(text[1]).Some? then Unit([NamedEscape(text[1]).value], 2)
    else if text[1] == 'x' then
      var digits := text[2..2 + HexRun(text[2..], 2)];
      assert text[2..][..HexRun(text[2..], 2)] == digits;
      Unit(if digits == "" then [] else [HexNumber(digits)], 2 + |digits|)
    else if IsOctalDigit(text[1]) then
      var digits := text[1..1 + OctalRun(text[1..], 3)];
      assert text[1..][..OctalRun(text[1..], 3)] == digits;
      Unit([OctalNumber(digits) % 256], 1 + |digits|)
    else Unit(Utf8Char(text[1]), 2)
  }

  /** The octets a text encodes: the concatenation of what its units stand for. */
  function Decoded(text: string): (octets: seq<Octet>)
    ensures |octets| <= 4 * |text|
    decreases |text|
  {
    if text == "" then []
    else
      var u := FirstUnit(text);
      u.octets + Decoded(text[u.length..])
  }

  // ----- the loop that computes it

  method PrintfDecode(text: string) returns (result: seq<Octet>)
    ensures result == Decoded(text)
  {
    result := [];
    var index := 0;
    while index < |text|
      invariant ReadTo(text, index, result)
      decreases |text| - index
    {
      var c := text[index];
      index := index + 1;
      if c != '\\' {
        PlainStep(text, index - 1, result);
        result := result + Utf8Char(c);
        continue;
      }
      if index >= |text| {
        LoneBackslash(text, result);
        break;
      }
      var octets, next := DecodeEscape(text, index);
      DecodedStep(text, index - 1, result, octets, next);
      result, index := result + octets, next;
    }
  }

  /** The cases of the loop after a backslash, the character after it being at index. */
  method DecodeEscape(text: string, index: nat) returns (octets: seq<Octet>, next: nat)
    requires 1 <= index < |text| && text[index - 1] == '\\'
    ensures next >= index && FirstUnit(text[index - 1..]) == Unit(octets, next + 1 - index)
  {
    ghost var rest := text[index - 1..];
    octets, next := [], index;
    var escape := text[index];
    assert escape == rest[1];
    if NamedEscape(escape).Some? {
      octets := [NamedEscape(escape).value];
      next := next + 1;
    } else if escape == 'x' {
      next := next + 1;
      var digits := ReadHex(text, next);
      next := next + |digits|;
      assert rest[2..] == text[index + 1..];
      assert rest[2..2 + |digits|] == rest[2..][..|digits|];
      if digits != "" {
        octets := [HexNumber(digits)];
      }
    } else if IsOctalDigit(escape) {
      var value, digits := ReadOctal(text, next);
      next := next + digits;
      assert rest[1..] == text[index..];
      assert rest[1..1 + digits] == rest[1..][..digits];
      octets := [value % 256];
    } else {
      octets := Utf8Char(escape);
      next := next + 1;
    }
  }

  /** The inner loop over at most two hexadecimal digits. */
  method ReadHex(text: string, index: nat) returns (digits: string)
    requires index <= |text|
    ensures |digits| == HexRun(text[index..], 2)
    ensures digits == text[index..][..|digits|]
  {
    digits := "";
    var next := index;
    while next < |text| && |digits| < 2 && IsHexDigit(text[next])
      invariant next == index + |digits| <= |text| && |digits| <= 2
      invariant digits == text[index..][..|digits|]
      invariant |digits| <= HexRun(text[index..], 2)
      decreases |text| - next
    {
      digits := digits + [text[next]];
      next := next + 1;
      HexRunAtLeast(text[index..], 2, digits);
    }
  }

  /** The inner loop over at most three octal digits. */
  method ReadOctal(text: string, index: nat) returns (value: nat, digits: nat)
    requires index <= |text|
    ensures digits == OctalRun(text[index..], 3)
    ensures value == OctalNumber(text[index..][..digits])
  {
    value, digits := 0, 0;
    ghost var read := "";
    while index + digits < |text| && digits < 3 && IsOctalDigit(text[index + digits])
      invariant digits == |read| <= 3 && index + digits <= |text|
      invariant read == text[index..][..digits] && AllOctal(read)
      invariant value == OctalNumber(read)
      invariant digits <= OctalRun(text[index..], 3)
      decreases 3 - digits
    {
      read := read + [text[index + digits]];
      value := value * 8 + (text[index + digits] as int - '0' as int);
      digits := digits + 1;
      OctalRunAtLeast(text[index..], 3, read);
    }
  }

  /** The loop's invariant: octets is what the first index characters of text stand for. */
  ghost predicate ReadTo(text: string, index: nat, octets: seq<Octet>) {
    index <= |text| && octets + Decoded(text[index..]) == Decoded(text)
  }

  lemma DecodedStep(text: string, i: nat, before: seq<Octet>, octets: seq<Octet>, next: nat)
    requires i < next && i < |text| && ReadTo(text, i, before)
    requires FirstUnit(text[i..]) == Unit(octets, next - i)
    ensures ReadTo(text, next, before + octets)
  {
    calc {
      before + octets + Decoded(text[next..]);
      { Associate(before, octets, Decoded(text[next..])); }
      before + (octets + Decoded(text[next..]));
      { assert text[i..][next - i..] == text[next..]; }
      before + Decoded(text[i..]);
    }
  }

  lemma PlainStep(text: string, i: nat, octets: seq<Octet>)
    requires i < |text| && text[i] != '\\' && ReadTo(text, i, octets)
    ensures ReadTo(text, i + 1, octets + Utf8Char(text[i]))
  {
    DecodedStep(text, i, octets, Utf8Char(text[i]), i + 1);
  }

  lemma LoneBackslash(text: string, octets: seq<Octet>)
    requires text != "" && text[|text| - 1] == '\\' && ReadTo(text, |text| - 1, octets)
    ensures octets == Decoded(text)
  {
    var last := text[|text| - 1..];
    assert last == "\\" && FirstUnit(last) == Unit([], 1);
    DecodedStep(text, |text| - 1, octets, [], |text|);
    assert text[|text|..] == "" && octets + [] == octets && octets + [] + [] == octets;
  }

  lemma {:induction false} HexRunAtLeast(s: string, limit: nat, digits: string)
    requires digits <= s && |digits| <= limit && AllHex(digits)
    ensures |digits| <= HexRun(s, limit)
  {
    if digits != "" {
      assert s[0] == digits[0];
      HexRunAtLeast(s[1..], limit - 1, digits[1..]);
    }
  }

  lemma {:induction false} OctalRunAtLeast(s: string, limit: nat, digits: string)
    requires digits <= s && |digits| <= limit && AllOctal(digits)
    ensures |digits| <= OctalRun(s, limit)
  {
    if digits != "" {
      assert s[0] == digits[0];
      OctalRunAtLeast(s[1..], limit - 1, digits[1..]);
    }
  }
}
