/** The daemon's encoder, and what is true of encoding and decoding: the round trip, where an escaped
    text may be cut in two, and how long each side can grow. */
module PrintfLaws {
  import opened Octets
  import opened Printf
  import opened Text
  import opened Wrappers

  // ----- the encoder of the daemon, which the decoder must undo

  function EncodedOctet(o: Octet): (s: string)
    ensures 1 <= |s| <= 4
    ensures Printable(s)
    ensures s[0] != ' ' || s == " "
  {
    if o == 34 then "\\\""
    else if o == 92 then "\\\\"
    else if o == 27 then "\\e"
    else if o == 10 then "\\n"
    else if o == 13 then "\\r"
    else if o == 9 then "\\t"
    else if 32 <= o <= 126 then [o as char]
    else ['\\', 'x', HexDigit(o / 16), HexDigit(o % 16)]
  }

  predicate Printable(s: string) {
    forall i | 0 <= i < |s| :: 32 <= s[i] as int <= 126
  }

  function Encoded(b: seq<Octet>): (s: string)
    ensures |b| <= |s| <= 4 * |b|
    ensures Printable(s)
  {
    if b == [] then "" else EncodedOctet(b[0]) + Encoded(b[1..])
  }

  lemma FirstUnitOfEncoded(o: Octet, rest: string)
    ensures FirstUnit(EncodedOctet(o) + rest) == Unit([o], |EncodedOctet(o)|)
  {
    var s := EncodedOctet(o);
    var text := s + rest;
    assert text[0] == s[0];
    if |s| == 4 {
      assert text[1] == 'x';
      var digits := [HexDigit(o / 16), HexDigit(o % 16)];
      assert digits <= text[2..];
      HexRunAtLeast(text[2..], 2, digits);
      assert text[2..4] == digits;
      assert digits[..1] == [digits[0]] && digits[..1][..0] == "";
      assert HexNumber(digits) == 16 * HexNumber(digits[..1]) + HexValue(digits[1]);
    } else if |s| == 2 {
      assert text[1] == s[1];
    }
  }

  /** Decoding what the daemon printed gives back the octets it printed. */
  lemma {:induction false} RoundTrip(b: seq<Octet>)
    ensures Decoded(Encoded(b)) == b
  {
    if b != [] {
      var s := EncodedOctet(b[0]);
      FirstUnitOfEncoded(b[0], Encoded(b[1..]));
      assert (s + Encoded(b[1..]))[|s|..] == Encoded(b[1..]);
      RoundTrip(b[1..]);
      assert b == [b[0]] + b[1..];
    }
  }

  lemma EncodedInjective(a: seq<Octet>, b: seq<Octet>)
    requires Encoded(a) == Encoded(b)
    ensures a == b
  {
    RoundTrip(a);
    RoundTrip(b);
  }

  /** What the daemon's encoder never prints and its decoder takes all the same. Three octal digits are one
      octet, kept to eight bits, and no fourth digit is read. */
  lemma OctalReads(a: char, b: char, c: char, rest: string)
    requires IsOctalDigit(a) && IsOctalDigit(b) && IsOctalDigit(c)
    ensures Decoded("\\" + [a, b, c] + rest)
         == [(64 * (a as int - 48) + 8 * (b as int - 48) + (c as int - 48)) % 256] + Decoded(rest)
  {
    var digits := [a, b, c];
    var text := "\\" + digits + rest;
    assert digits <= text[1..];
    OctalRunAtLeast(text[1..], 3, digits);
    assert text[1..4] == digits && text[4..] == rest;
    OctalOfThree(a, b, c);
  }

  lemma OctalOfThree(a: char, b: char, c: char)
    requires IsOctalDigit(a) && IsOctalDigit(b) && IsOctalDigit(c)
    ensures OctalNumber([a, b, c]) == 64 * (a as int - 48) + 8 * (b as int - 48) + (c as int - 48)
  {
    assert [a, b, c][..2] == [a, b] && [a, b][..1] == [a] && [a][..0] == "";
    assert OctalNumber([a]) == a as int - 48;
    assert OctalNumber([a, b]) == 8 * OctalNumber([a]) + (b as int - 48);
  }

  /** A backslash before a character that is no escape is dropped, and so are a backslash at the end and an
      x with no digit after it. */
  lemma LenientReads(c: char, rest: string)
    requires NamedEscape(c).None? && !IsOctalDigit(c)
    ensures c != 'x' ==> Decoded("\\" + [c] + rest) == Decoded([c] + rest)
    ensures c == 'x' && (rest == "" || !IsHexDigit(rest[0])) ==> Decoded("\\" + [c] + rest) == Decoded(rest)
    ensures Decoded("\\") == []
  {
    var text := "\\" + [c] + rest;
    assert text[2..] == rest && ([c] + rest)[1..] == rest;
  }

  predicate Ascii(s: string) {
    forall i | 0 <= i < |s| :: s[i] as int < 128
  }

  /** The wire form is ASCII, and then no character yields more than one octet. */
  lemma {:induction false} DecodedNoLonger(text: string)
    requires Ascii(text)
    ensures |Decoded(text)| <= |text|
    decreases |text|
  {
    if text != "" {
      DecodedNoLonger(text[FirstUnit(text).length..]);
    }
  }

  // ----- where an escaped text may be cut

  /** How a text ends: on a boundary, or inside an escape that more characters could still lengthen. */
  datatype Ending = Boundary | Backslash | HexEscape(digits: nat) | OctalEscape(digits: nat)

  /** How a text that is one single unit ends. */
  function UnitEnding(text: string): Ending
    requires text != ""
  {
    if text[0] != '\\' then Boundary
    else if |text| == 1 then Backslash
    else if text[1] == 'x' then
      if |text| < 4 then HexEscape(|text| - 2) else Boundary
    else if IsOctalDigit(text[1]) then
      if |text| < 4 then OctalEscape(|text| - 1) else Boundary
    else Boundary
  }

  function EndingOf(text: string): Ending
    decreases |text|
  {
    if text == "" then Boundary
    else
      var u := FirstUnit(text);
      if u.length == |text| then UnitEnding(text) else EndingOf(text[u.length..])
  }

  /** Whether the character c, read next, would become part of the unfinished escape. */
  predicate Lengthens(e: Ending, c: char) {
    match e
    case Boundary => false
    case Backslash => true
    case HexEscape(_) => IsHexDigit(c)
    case OctalEscape(_) => IsOctalDigit(c)
  }

  lemma {:induction false} HexRunOfAppend(s: string, t: string, limit: nat)
    requires HexRun(s, limit) < |s| || |s| >= limit || t == "" || !IsHexDigit(t[0])
    ensures HexRun(s + t, limit) == HexRun(s, limit)
  {
    if s == "" {
      assert s + t == t;
    } else if limit > 0 && IsHexDigit(s[0]) {
      assert (s + t)[1..] == s[1..] + t;
      HexRunOfAppend(s[1..], t, limit - 1);
    }
  }

  lemma {:induction false} OctalRunOfAppend(s: string, t: string, limit: nat)
    requires OctalRun(s, limit) < |s| || |s| >= limit || t == "" || !IsOctalDigit(t[0])
    ensures OctalRun(s + t, limit) == OctalRun(s, limit)
  {
    if s == "" {
      assert s + t == t;
    } else if limit > 0 && IsOctalDigit(s[0]) {
      assert (s + t)[1..] == s[1..] + t;
      OctalRunOfAppend(s[1..], t, limit - 1);
    }
  }

  lemma MiddleOfAppend<T>(a: seq<T>, c: seq<T>, i: nat, n: nat)
    requires i + n <= |a|
    ensures (a + c)[i..i + n] == a[i..i + n]
  {
  }

  lemma HexUnitOfAppend(a: string, c: string)
    requires |a| > 1 && a[0] == '\\' && a[1] == 'x' && c != ""
    requires FirstUnit(a).length == |a| ==> !Lengthens(UnitEnding(a), c[0])
    ensures FirstUnit(a + c) == FirstUnit(a)
  {
    var t, n := a + c, HexRun(a[2..], 2);
    DropAppend(a, c, 2);
    HexRunOfAppend(a[2..], c, 2);
    MiddleOfAppend(a, c, 2, n);
  }

  lemma OctalUnitOfAppend(a: string, c: string)
    requires |a| > 1 && a[0] == '\\' && IsOctalDigit(a[1]) && c != ""
    requires FirstUnit(a).length == |a| ==> !Lengthens(UnitEnding(a), c[0])
    ensures FirstUnit(a + c) == FirstUnit(a)
  {
    var t, n := a + c, OctalRun(a[1..], 3);
    DropAppend(a, c, 1);
    OctalRunOfAppend(a[1..], c, 3);
    MiddleOfAppend(a, c, 1, n);
  }

  /** A unit that text after it cannot lengthen is read the same when that text is there. */
  lemma FirstUnitOfAppend(a: string, c: string)
    requires a != "" && c != ""
    requires FirstUnit(a).length == |a| ==> !Lengthens(UnitEnding(a), c[0])
    ensures FirstUnit(a + c) == FirstUnit(a)
  {
    if a[0] == '\\' && |a| > 1 && a[1] == 'x' {
      HexUnitOfAppend(a, c);
    } else if a[0] == '\\' && |a| > 1 && IsOctalDigit(a[1]) {
      OctalUnitOfAppend(a, c);
    }
  }

  lemma DecodedUnfold(a: string, c: string)
    requires a != "" && FirstUnit(a + c) == FirstUnit(a)
    ensures Decoded(a + c) == FirstUnit(a).octets + Decoded(a[FirstUnit(a).length..] + c)
  {
    DropAppend(a, c, FirstUnit(a).length);
  }

  /** Cutting an escaped text where the second part cannot lengthen the last escape of the first
      changes nothing. */
  lemma {:induction false} DecodedAppend(a: string, c: string)
    requires c == "" || !Lengthens(EndingOf(a), c[0])
    ensures Decoded(a + c) == Decoded(a) + Decoded(c)
    decreases |a|
  {
    if a == "" {
      assert a + c == c;
    } else if c == "" {
      assert a + c == a;
    } else {
      var u := FirstUnit(a);
      FirstUnitOfAppend(a, c);
      DecodedUnfold(a, c);
      DecodedAppend(a[u.length..], c);
      Associate(u.octets, Decoded(a[u.length..]), Decoded(c));
    }
  }

  /** Digits read as plain text are one octet each. */
  lemma {:induction false} DecodedPlain(s: string, rest: string)
    requires Ascii(s) && '\\' !in s
    ensures Decoded(s + rest) == Utf8(s) + Decoded(rest) && |Utf8(s)| == |s|
  {
    if s == "" {
      assert s + rest == rest;
    } else {
      assert (s + rest)[1..] == s[1..] + rest;
      DecodedPlain(s[1..], rest);
      Associate(Utf8Char(s[0]), Utf8(s[1..]), Decoded(rest));
    }
  }

  lemma DecodedSingle(a: string)
    requires a != "" && FirstUnit(a).length == |a|
    ensures Decoded(a) == FirstUnit(a).octets
  {
    assert a[|a|..] == "";
  }

  lemma DecodedFrom(t: string, n: nat, rest: string)
    requires t != "" && FirstUnit(t).length == n && t[n..] == rest
    ensures Decoded(t) == FirstUnit(t).octets + Decoded(rest)
  {
  }

  /** When an escape begun by a swallows the first k characters of c and yields one octet. */
  lemma Swallowed(a: string, c: string, k: nat)
    requires a != "" && k <= |c| && Ascii(c[..k]) && '\\' !in c[..k]
    requires FirstUnit(a + c).length == |a| + k && |FirstUnit(a + c).octets| == 1
    ensures Decoded(a + c) == FirstUnit(a + c).octets + Decoded(c[k..])
    ensures Decoded(c) == Utf8(c[..k]) + Decoded(c[k..]) && |Utf8(c[..k])| == k
  {
    DecodedFrom(a + c, |a| + k, c[k..]);
    DecodedPlain(c[..k], c[k..]);
    assert c == c[..k] + c[k..];
  }

  /** Of the text read from i on, what lies behind a. */
  lemma BehindFirst<T>(a: seq<T>, c: seq<T>, i: nat, read: nat)
    requires i <= |a| <= i + read <= |a| + |c|
    ensures (a + c)[i..][..read][|a| - i..] == c[..i + read - |a|]
  {
  }

  lemma HexEscapeSwallows(a: string, c: string) returns (k: nat)
    requires 2 <= |a| <= 3 && a[0] == '\\' && a[1] == 'x' && AllHex(a[2..])
    requires c != "" && IsHexDigit(c[0])
    ensures 1 <= k <= |c| && |a| + k <= 4 && AllHex(c[..k])
    ensures FirstUnit(a + c).length == |a| + k && |FirstUnit(a + c).octets| == 1
    ensures |a| == 2 && k == 1 ==> FirstUnit(a + c).octets[0] < 16
  {
    var t := a + c;
    var read := HexRun(t[2..], 2);
    assert t[2..|a| + 1] == a[2..] + [c[0]];
    HexRunAtLeast(t[2..], 2, t[2..|a| + 1]);
    k := read + 2 - |a|;
    BehindFirst(a, c, 2, read);
    assert t[2..2 + read] == t[2..][..read];
  }

  lemma HexEscapeAlone(a: string)
    requires 2 <= |a| <= 3 && a[0] == '\\' && a[1] == 'x' && AllHex(a[2..])
    ensures |Decoded(a)| == |a| - 2
  {
    HexRunAtLeast(a[2..], 2, a[2..]);
    DecodedSingle(a);
  }

  lemma FirstOctetDiffers(a: string, c: string)
    requires Decoded(a) == [] && c != "" && IsHexDigit(c[0])
    requires Decoded(a + c) != [] && Decoded(a + c)[0] < 16
    ensures Decoded(a + c) != Decoded(a) + Decoded(c)
  {
    DecodedFrom(c, 1, c[1..]);
    assert (Decoded(a) + Decoded(c))[0] == Decoded(c)[0] == c[0] as int;
  }

  /** A hexadecimal escape cut before one of its digits is read differently whole. */
  lemma HexCutMatters(a: string, c: string)
    requires 2 <= |a| <= 3 && a[0] == '\\' && a[1] == 'x' && AllHex(a[2..])
    requires c != "" && IsHexDigit(c[0])
    ensures Decoded(a + c) != Decoded(a) + Decoded(c)
  {
    var k := HexEscapeSwallows(a, c);
    Swallowed(a, c, k);
    HexEscapeAlone(a);
    if |a| == 2 && k == 1 {
      FirstOctetDiffers(a, c);
    } else {
      assert |Decoded(a + c)| == 1 + |Decoded(c[k..])|;
      assert |Decoded(a) + Decoded(c)| == |a| - 2 + k + |Decoded(c[k..])|;
    }
  }

  lemma OctalEscapeSwallows(a: string, c: string) returns (k: nat)
    requires 2 <= |a| <= 3 && a[0] == '\\' && AllOctal(a[1..])
    requires c != "" && IsOctalDigit(c[0])
    ensures 1 <= k <= |c| && AllOctal(c[..k])
    ensures FirstUnit(a + c).length == |a| + k && |FirstUnit(a + c).octets| == 1
  {
    var t := a + c;
    assert t[1] == a[1..][0];
    var read := OctalRun(t[1..], 3);
    assert t[1..|a| + 1] == a[1..] + [c[0]];
    OctalRunAtLeast(t[1..], 3, t[1..|a| + 1]);
    k := read + 1 - |a|;
    BehindFirst(a, c, 1, read);
  }

  lemma OctalCutMatters(a: string, c: string)
    requires 2 <= |a| <= 3 && a[0] == '\\' && AllOctal(a[1..])
    requires c != "" && IsOctalDigit(c[0])
    ensures Decoded(a + c) != Decoded(a) + Decoded(c)
  {
    var k := OctalEscapeSwallows(a, c);
    Swallowed(a, c, k);
    assert a[1] == a[1..][0];
    OctalRunAtLeast(a[1..], 3, a[1..]);
    assert a[FirstUnit(a).length..] == "";
    assert |Decoded(a)| == 1;
  }

  lemma {:induction false} CutMatters(a: string, c: string)
    requires EndingOf(a) != Backslash && c != "" && Lengthens(EndingOf(a), c[0])
    ensures Decoded(a + c) != Decoded(a) + Decoded(c)
    decreases |a|
  {
    var u := FirstUnit(a);
    if u.length < |a| {
      var rest := a[u.length..];
      FirstUnitOfAppend(a, c);
      DecodedUnfold(a, c);
      CutMatters(rest, c);
      Associate(u.octets, Decoded(rest), Decoded(c));
      PrefixCancels(u.octets, Decoded(rest + c), Decoded(rest) + Decoded(c));
    } else if a[1] == 'x' {
      assert a[2..] == a[2..][..HexRun(a[2..], 2)];
      HexCutMatters(a, c);
    } else {
      assert a[1..] == a[1..][..OctalRun(a[1..], 3)];
      OctalCutMatters(a, c);
    }
  }

  lemma PrefixCancels<T>(p: seq<T>, x: seq<T>, y: seq<T>)
    requires x != y
    ensures p + x != p + y
  {
    assert (p + x)[|p|..] == x;
    assert (p + y)[|p|..] == y;
  }

  // ----- what a lone backslash does to the text after it

  /** The texts a backslash in front leaves unchanged: pairs of backslashes, then the end, a double quote
      or a character that is no escape of its own. */
  predicate Immune(c: string)
    decreases |c|
  {
    if c == "" then true
    else if c[0] == '\\' then |c| > 1 && c[1] == '\\' && Immune(c[2..])
    else c[0] == '\"' || (NamedEscape(c[0]).None? && c[0] != 'x' && !IsOctalDigit(c[0]))
  }

  lemma UnitOfBackslashX(c: string) returns (k: nat)
    requires c != "" && c[0] == 'x'
    ensures 1 <= k <= |c| && Ascii(c[..k]) && '\\' !in c[..k]
    ensures FirstUnit("\\" + c).length == 1 + k && |FirstUnit("\\" + c).octets| < k
  {
    var t, n := "\\" + c, HexRun(c[1..], 2);
    assert t[2..] == c[1..];
    k := 1 + n;
    assert c[..k] == "x" + c[1..][..n];
    assert t[2..2 + n] == c[1..][..n];
  }

  lemma UnitOfBackslashOctal(c: string) returns (k: nat)
    requires c != "" && IsOctalDigit(c[0])
    ensures 1 <= k <= |c| && AllOctal(c[..k])
    ensures FirstUnit("\\" + c).length == 1 + k && |FirstUnit("\\" + c).octets| == 1
    ensures k == 1 ==> FirstUnit("\\" + c).octets[0] < 8
  {
    var t := "\\" + c;
    assert t[1..] == c;
    k := OctalRun(c, 3);
    OctalRunAtLeast(c, 3, c[..1]);
    assert t[1..1 + k] == c[..k];
    if k == 1 {
      var digits := t[1..2];
      assert digits[..0] == "" && digits[0] == c[0];
      assert OctalNumber(digits) == 8 * OctalNumber(digits[..0]) + (c[0] as int - '0' as int);
      assert OctalNumber(digits) % 256 < 8;
    }
  }

  lemma BackslashBeforeX(c: string)
    requires c != "" && c[0] == 'x'
    ensures |Decoded("\\" + c)| < |Decoded(c)|
  {
    var k := UnitOfBackslashX(c);
    DecodedFrom("\\" + c, 1 + k, c[k..]);
    DecodedPlain(c[..k], c[k..]);
    assert c == c[..k] + c[k..];
  }

  lemma BackslashBeforeOctal(c: string)
    requires c != "" && IsOctalDigit(c[0])
    ensures |Decoded("\\" + c)| <= |Decoded(c)|
    ensures Decoded("\\" + c) != Decoded(c)
  {
    var k := UnitOfBackslashOctal(c);
    Swallowed("\\", c, k);
    if k == 1 {
      assert c[..1] == [c[0]];
      assert Decoded(c)[0] == c[0] as int;
      assert Decoded("\\" + c)[0] < 8;
    }
  }

  lemma NamedEscapeOf(c: char)
    requires c != '\\' && NamedEscape(c).Some?
    ensures Utf8Char(c) == [NamedEscape(c).value] <==> c == '\"'
  {
  }

  lemma FrontCancels<T>(p: seq<T>, q: seq<T>, rest: seq<T>)
    ensures p + rest == q + rest <==> p == q
  {
    if |p| == |q| {
      assert (p + rest)[..|p|] == p && (q + rest)[..|q|] == q;
    } else {
      assert |p + rest| != |q + rest|;
    }
  }

  lemma BackslashBeforeOther(c: string)
    requires c != "" && c[0] != '\\' && c[0] != 'x' && !IsOctalDigit(c[0])
    ensures |Decoded("\\" + c)| <= |Decoded(c)|
    ensures Decoded("\\" + c) == Decoded(c) <==> Immune(c)
  {
    var t, rest := "\\" + c, c[1..];
    assert t[0] == '\\' && t[1] == c[0];
    assert t[2..] == rest;
    DecodedFrom(t, 2, rest);
    DecodedFrom(c, 1, rest);
    FrontCancels(FirstUnit(t).octets, Utf8Char(c[0]), Decoded(rest));
    if NamedEscape(c[0]).Some? {
      NamedEscapeOf(c[0]);
    }
  }

  /** The octets of a backslash and of c behind it, c not beginning with a backslash itself. */
  lemma BackslashBefore(c: string)
    requires c != "" && c[0] != '\\'
    ensures |Decoded("\\" + c)| <= |Decoded(c)|
    ensures Decoded("\\" + c) == Decoded(c) <==> Immune(c)
  {
    if c[0] == 'x' {
      BackslashBeforeX(c);
    } else if IsOctalDigit(c[0]) {
      BackslashBeforeOctal(c);
    } else {
      BackslashBeforeOther(c);
    }
  }

  lemma {:induction false} LoneBackslashCut(c: string)
    ensures Decoded("\\" + c) == Decoded(c) <==> Immune(c)
    decreases |c|
  {
    if c == "" {
      assert "\\" + c == "\\";
    } else if c[0] != '\\' {
      BackslashBefore(c);
    } else {
      var d := c[1..];
      assert c == "\\" + d;
      DecodedFrom("\\" + c, 2, d);
      if d == "" {
        DecodedSingle(c);
      } else if d[0] == '\\' {
        assert c[2..] == d[1..] && d == "\\" + c[2..];
        DecodedFrom(c, 2, c[2..]);
        LoneBackslashCut(c[2..]);
        if Decoded(d) != Decoded(c[2..]) {
          PrefixCancels([92], Decoded(d), Decoded(c[2..]));
        }
      } else {
        BackslashBefore(d);
      }
    }
  }

  // ----- the exact condition

  predicate SafeCut(a: string, c: string) {
    if EndingOf(a) == Backslash then Immune(c) else c == "" || !Lengthens(EndingOf(a), c[0])
  }

  lemma LastOfDrop<T>(s: seq<T>, n: nat)
    requires n < |s|
    ensures s[n..][|s[n..]| - 1] == s[|s| - 1]
  {
  }

  lemma UnitIsBackslash(a: string)
    requires a != "" && UnitEnding(a) == Backslash
    ensures a == "\\"
  {
  }

  lemma {:induction false} EndsInBackslash(a: string)
    requires EndingOf(a) == Backslash
    ensures a != "" && a[|a| - 1] == '\\'
    decreases |a|
  {
    var n := FirstUnit(a).length;
    if n < |a| {
      EndsInBackslash(a[n..]);
      LastOfDrop(a, n);
    } else {
      UnitIsBackslash(a);
    }
  }

  lemma {:induction false} BeforeLoneBackslash(b: string)
    requires EndingOf(b + "\\") == Backslash
    ensures EndingOf(b) != Backslash
    decreases |b|
  {
    if b != "" {
      var u := FirstUnit(b);
      assert b == "\\" ==> b + "\\" == "\\\\";
      FirstUnitOfAppend(b, "\\");
      DropAppend(b, "\\", u.length);
      BeforeLoneBackslash(b[u.length..]);
    }
  }

  lemma LoneIsNothing()
    ensures Decoded("\\") == []
  {
    DecodedSingle("\\");
  }

  lemma LoneAtEnd(b: string)
    requires EndingOf(b) != Backslash
    ensures Decoded(b + "\\") == Decoded(b)
  {
    DecodedAppend(b, "\\");
    LoneIsNothing();
    assert Decoded(b) + [] == Decoded(b);
  }

  lemma CutAtBackslash(a: string, b: string, c: string)
    requires EndingOf(a) == Backslash && a == b + "\\"
    ensures Decoded(a) == Decoded(b) && Decoded(a + c) == Decoded(b) + Decoded("\\" + c)
  {
    BeforeLoneBackslash(b);
    LoneAtEnd(b);
    Associate(b, "\\", c);
    DecodedAppend(b, "\\" + c);
  }

  lemma BackslashCutIsSafe(a: string, c: string)
    requires EndingOf(a) == Backslash
    ensures Decoded(a + c) == Decoded(a) + Decoded(c) <==> Immune(c)
  {
    EndsInBackslash(a);
    var b := a[..|a| - 1];
    CutAtBackslash(a, b, c);
    LoneBackslashCut(c);
    if Decoded("\\" + c) != Decoded(c) {
      PrefixCancels(Decoded(b), Decoded("\\" + c), Decoded(c));
    }
  }

  /** Cutting an escaped text in two changes nothing if and only if the cut is safe. */
  lemma CutIsSafeExactlyWhen(a: string, c: string)
    ensures Decoded(a + c) == Decoded(a) + Decoded(c) <==> SafeCut(a, c)
  {
    if EndingOf(a) == Backslash {
      BackslashCutIsSafe(a, c);
    } else if SafeCut(a, c) {
      DecodedAppend(a, c);
    } else {
      CutMatters(a, c);
    }
  }
}
