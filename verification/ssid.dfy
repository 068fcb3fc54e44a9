/** wpa_ctrl/ssid.py: the spellings a configuration uses for an octet string, and for a secret. */
module Ssid {
  import opened Octets
  import opened Printf
  import opened PrintfLaws
  import opened Text
  import opened Wrappers

  // ----- reading a configuration value

  /** The text before a closing quote that must be the last character. */
  function QuotedBody(rest: string): (body: Option<string>)
    ensures body.Some? <==> rest != "" && rest[|rest| - 1] == '\"'
    ensures body.Some? ==> rest == body.value + "\""
  {
    var p := RPartition(rest, '\"');
    if !p.found || p.tail != "" then None
    else
      assert rest == p.head + "\"";
      Some(p.head)
  }

  /** Ssid.from_config */
  function FromConfig(value: string): Result<seq<Octet>> {
    if "\"" <= value then
      match QuotedBody(value[1..])
      case None => Err(ValueError)
      case Some(body) => Ok(Utf8(body))
    else if "P\"" <= value then
      match QuotedBody(value[2..])
      case None => Err(ValueError)
      case Some(body) => Ok(Decoded(body))
    else if |value| % 2 != 0 || !AllHex(value) then Err(ValueError)
    else Ok(FromHex(value))
  }

  /** A quoted form: it opens as given and its last character is a double quote of its own. */
  predicate Terminated(value: string, opening: string) {
    opening <= value && |value| > |opening| && value[|value| - 1] == '\"'
  }

  /** from_config accepts exactly the terminated quoted forms, of either kind, and hex of even length. */
  lemma FromConfigAccepts(value: string)
    ensures FromConfig(value).Ok? <==>
      || Terminated(value, "\"") || Terminated(value, "P\"") || (|value| % 2 == 0 && AllHex(value))
    ensures FromConfig(value).Err? ==> FromConfig(value).error == ValueError
  {
    if "\"" <= value {
      assert value[1..] != "" ==> value[1..][|value| - 2] == value[|value| - 1];
      assert !IsHexDigit(value[0]);
    } else if "P\"" <= value {
      assert value[2..] != "" ==> value[2..][|value| - 3] == value[|value| - 1];
      assert !IsHexDigit(value[0]);
    }
  }

  /** A quoted text is read as the octets that decode to it, a printf-quoted one as what its escapes say. */
  lemma FromConfigQuoted(body: string)
    ensures FromConfig("\"" + body + "\"") == Ok(Utf8(body)) && DecodeUtf8(Utf8(body)) == Some(body)
    ensures FromConfig("P\"" + body + "\"") == Ok(Decoded(body))
  {
    assert ("\"" + body + "\"")[1..] == body + "\"";
    assert ("P\"" + body + "\"")[2..] == body + "\"";
    QuotedBodyIs(body);
    DecodesExactly(Utf8(body), body);
  }

  lemma QuotedBodyIs(body: string)
    ensures QuotedBody(body + "\"") == Some(body)
  {
    assert (body + "\"")[..|body|] == body;
  }

  // ----- writing one

  predicate AllPrintable(b: seq<Octet>) {
    forall i | 0 <= i < |b| :: 32 <= b[i] <= 126
  }

  /** b.decode("ascii") */
  function AsciiText(b: seq<Octet>): (s: string)
    requires AllPrintable(b)
    ensures |s| == |b|
  {
    if b == [] then "" else [b[0] as char] + AsciiText(b[1..])
  }

  /** Ssid.config_value */
  function ConfigValue(b: seq<Octet>): string {
    if AllPrintable(b) then "\"" + AsciiText(b) + "\"" else Hex(b)
  }

  lemma AsciiCons(o: Octet, rest: string)
    requires 32 <= o <= 126
    ensures Utf8([o as char] + rest) == [o] + Utf8(rest)
  {
    Utf8Cons(o as char, rest);
  }

  lemma {:induction false} Utf8OfAscii(b: seq<Octet>)
    requires AllPrintable(b)
    ensures Utf8(AsciiText(b)) == b
  {
    if b != [] {
      Utf8OfAscii(b[1..]);
      AsciiCons(b[0], AsciiText(b[1..]));
      assert b == [b[0]] + b[1..];
    }
  }

  lemma HexIsTaken(value: string)
    requires |value| % 2 == 0 && AllHex(value)
    ensures FromConfig(value) == Ok(FromHex(value))
  {
    assert value != "" ==> IsHexDigit(value[0]);
  }

  lemma FromConfigHex(b: seq<Octet>)
    ensures FromConfig(Hex(b)) == Ok(b)
  {
    FromHexOfHex(b);
    HexIsTaken(Hex(b));
  }

  /** And hex of any case reads as the octets it is the hexdump of. */
  lemma FromConfigOfHex(value: string) returns (b: seq<Octet>)
    requires |value| % 2 == 0 && AllHex(value)
    ensures FromConfig(value) == Ok(b) && Hex(b) == LowerHex(value)
  {
    b := FromHex(value);
    HexIsTaken(value);
    HexOfFromHex(value);
  }

  /** Whichever way a configuration spells an octet string, it reads back as those octets. */
  lemma ConfigSpellingsAgree(b: seq<Octet>)
    ensures FromConfig(ConfigValue(b)) == Ok(b)
    ensures FromConfig(Hex(b)) == Ok(b)
    ensures FromConfig("P\"" + Encoded(b) + "\"") == Ok(b)
  {
    FromConfigHex(b);
    FromConfigQuoted(Encoded(b));
    RoundTrip(b);
    if AllPrintable(b) {
      FromConfigQuoted(AsciiText(b));
      Utf8OfAscii(b);
    }
  }

  lemma {:induction false} AsciiTextAt(b: seq<Octet>, i: nat)
    requires AllPrintable(b) && i < |b|
    ensures AsciiText(b)[i] as int == b[i]
  {
    if i > 0 {
      AsciiTextAt(b[1..], i - 1);
    }
  }

  /** Text in quotes, a character for each octet. */
  predicate QuotesOctets(value: string, b: seq<Octet>) {
    && |value| == |b| + 2 && value[0] == '\"' && value[|b| + 1] == '\"'
    && forall i | 0 <= i < |b| :: value[1 + i] as int == b[i]
  }

  lemma PrintableIs(b: seq<Octet>)
    ensures AllPrintable(b) <==> forall o | o in b :: 32 <= o <= 126
  {
    if o :| o in b && !(32 <= o <= 126) {
      var i :| 0 <= i < |b| && b[i] == o;
    }
    assert forall i | 0 <= i < |b| :: b[i] in b;
  }

  /** Printable octets are written as quoted text, all others as a hexdump. */
  lemma ConfigValueForm(b: seq<Octet>)
    ensures if forall o | o in b :: 32 <= o <= 126 then QuotesOctets(ConfigValue(b), b) else ConfigValue(b) == Hex(b)
  {
    PrintableIs(b);
    if AllPrintable(b) {
      forall i | 0 <= i < |b| ensures ConfigValue(b)[1 + i] as int == b[i] {
        AsciiTextAt(b, i);
      }
    }
  }

  lemma ConfigValueInjective(a: seq<Octet>, b: seq<Octet>)
    requires ConfigValue(a) == ConfigValue(b)
    ensures a == b
  {
    ConfigSpellingsAgree(a);
    ConfigSpellingsAgree(b);
  }

  // ----- quoting

  /** s.replace(c, by) for one character c. */
  function Replace(s: string, c: char, replacement: string): string {
    if s == "" then "" else (if s[0] == c then replacement else [s[0]]) + Replace(s[1..], c, replacement)
  }

  function Quote(value: string): string {
    "\"" + Replace(Replace(value, '\\', "\\\\"), '\"', "\\\"") + "\""
  }

  predicate NeedsEscape(c: char) {
    c == '\\' || c == '\"'
  }

  /** One pass that puts a backslash before every backslash and double quote. */
  function EscapedText(value: string): string {
    if value == "" then ""
    else (if NeedsEscape(value[0]) then ['\\', value[0]] else [value[0]]) + EscapedText(value[1..])
  }

  lemma {:induction false} ReplaceAppend(a: string, b: string, c: char, replacement: string)
    ensures Replace(a + b, c, replacement) == Replace(a, c, replacement) + Replace(b, c, replacement)
  {
    if a == "" {
      assert a + b == b;
    } else {
      assert (a + b)[1..] == a[1..] + b;
      ReplaceAppend(a[1..], b, c, replacement);
      Associate(if a[0] == c then replacement else [a[0]], Replace(a[1..], c, replacement), Replace(b, c, replacement));
    }
  }

  /** The second replacement does not touch what the first one put in. */
  lemma {:induction false} TwoReplacementsAreOnePass(value: string)
    ensures Replace(Replace(value, '\\', "\\\\"), '\"', "\\\"") == EscapedText(value)
  {
    if value != "" {
      var first := if value[0] == '\\' then "\\\\" else [value[0]];
      TwoReplacementsAreOnePass(value[1..]);
      ReplaceAppend(first, Replace(value[1..], '\\', "\\\\"), '\"', "\\\"");
      ReplaceShort(first);
    }
  }

  lemma ReplaceShort(s: string)
    requires |s| == 1 || s == "\\\\"
    ensures Replace(s, '\"', "\\\"") == if s == "\"" then "\\\"" else s
  {
    assert s[1..] == "" || (s[1..] == "\\" && s[1..][1..] == "");
    assert |s| == 1 ==> s == [s[0]];
  }

  lemma {:induction false} DecodedEscapedText(value: string)
    ensures Decoded(EscapedText(value)) == Utf8(value)
  {
    if value != "" {
      var c, rest := value[0], EscapedText(value[1..]);
      DecodedEscapedText(value[1..]);
      if NeedsEscape(c) {
        DecodedFrom(['\\', c] + rest, 2, rest);
      } else {
        DecodedFrom([c] + rest, 1, rest);
      }
    }
  }

  /** How many characters an escape is put before. */
  function Escapes(value: string): nat {
    if value == "" then 0 else (if NeedsEscape(value[0]) then 1 else 0) + Escapes(value[1..])
  }

  lemma {:induction false} NoEscapes(value: string)
    ensures Escapes(value) == 0 <==> '\\' !in value && '\"' !in value
  {
    if value != "" {
      NoEscapes(value[1..]);
      assert value == [value[0]] + value[1..];
    }
  }

  lemma {:induction false} Utf8EscapedText(value: string)
    ensures |Utf8(EscapedText(value))| == |Utf8(value)| + Escapes(value)
  {
    if value != "" {
      var c, rest := value[0], EscapedText(value[1..]);
      Utf8EscapedText(value[1..]);
      if NeedsEscape(c) {
        assert EscapedText(value) == ['\\'] + ([c] + rest);
        Utf8Cons('\\', [c] + rest);
      }
      Utf8Cons(c, rest);
    }
  }

  lemma {:induction false} UnescapedText(value: string)
    requires Escapes(value) == 0
    ensures EscapedText(value) == value
  {
    if value != "" {
      UnescapedText(value[1..]);
      assert value == [value[0]] + value[1..];
    }
  }

  lemma PBefore(body: string)
    ensures "P" + ("\"" + body + "\"") == "P\"" + body + "\""
  {
    assert "P" + ("\"" + body) == "P\"" + body;
  }

  lemma QuotedReads(value: string, quoted: string)
    requires quoted == "\"" + EscapedText(value) + "\""
    ensures FromConfig("P" + quoted) == Ok(Utf8(value))
    ensures FromConfig(quoted) == Ok(Utf8(EscapedText(value)))
  {
    PBefore(EscapedText(value));
    FromConfigQuoted(EscapedText(value));
    DecodedEscapedText(value);
  }

  lemma QuoteIsEscaped(value: string)
    ensures FromConfig("P" + Quote(value)) == Ok(Utf8(value))
    ensures FromConfig(Quote(value)) == Ok(Utf8(EscapedText(value)))
  {
    TwoReplacementsAreOnePass(value);
    QuotedReads(value, Quote(value));
  }

  lemma NothingToEscape(value: string)
    ensures Utf8(EscapedText(value)) == Utf8(value) <==> '\\' !in value && '\"' !in value
  {
    NoEscapes(value);
    Utf8EscapedText(value);
    if Escapes(value) == 0 {
      UnescapedText(value);
    }
  }

  /** quote() is the daemon's P"..." form without the P: with it the value always reads back as itself,
      without it exactly when there was nothing to escape. */
  lemma QuoteReadsBack(value: string)
    ensures FromConfig("P" + Quote(value)) == Ok(Utf8(value)) && DecodeUtf8(Utf8(value)) == Some(value)
    ensures FromConfig(Quote(value)) == Ok(Utf8(value)) <==> '\\' !in value && '\"' !in value
  {
    QuoteIsEscaped(value);
    NothingToEscape(value);
    DecodesExactly(Utf8(value), value);
  }

  // ----- secrets

  predicate IsRawPsk(secret: string) {
    |secret| == 64 && AllHex(secret)
  }

  function PskValue(secret: string): string {
    if IsRawPsk(secret) then secret else Quote(secret)
  }

  lemma {:induction false} EscapedTextInjective(a: string, b: string)
    requires EscapedText(a) == EscapedText(b)
    ensures a == b
  {
    if a != "" && b != "" {
      var s := EscapedText(a);
      assert s[0] == if NeedsEscape(a[0]) then '\\' else a[0];
      assert s[0] == if NeedsEscape(b[0]) then '\\' else b[0];
      assert NeedsEscape(a[0]) ==> s[1] == a[0];
      assert NeedsEscape(b[0]) ==> s[1] == b[0];
      var n := if NeedsEscape(a[0]) then 2 else 1;
      assert s[n..] == EscapedText(a[1..]) && s[n..] == EscapedText(b[1..]);
      EscapedTextInjective(a[1..], b[1..]);
      assert a == [a[0]] + a[1..] && b == [b[0]] + b[1..];
    }
  }

  /** No two secrets share a wire form, and the wire form says which kind of secret it is. */
  lemma PskValueInjective(a: string, b: string)
    ensures PskValue(a) == PskValue(b) ==> a == b
    ensures PskValue(a)[0] == '\"' <==> !IsRawPsk(a)
    ensures IsRawPsk(a) ==> FromConfig(PskValue(a)).Ok? && |FromConfig(PskValue(a)).value| == 32
  {
    if PskValue(a) == PskValue(b) && !IsRawPsk(a) && !IsRawPsk(b) {
      TwoReplacementsAreOnePass(a);
      TwoReplacementsAreOnePass(b);
      assert Quote(a)[1..|Quote(a)| - 1] == EscapedText(a);
      assert Quote(b)[1..|Quote(b)| - 1] == EscapedText(b);
      EscapedTextInjective(a, b);
    }
  }

  lemma DigitsInBothCases(c: char)
    ensures IsHexDigit(c) <==> c in "0123456789abcdefABCDEF"
  {
  }

  lemma RawPskIs(secret: string)
    ensures IsRawPsk(secret) <==> |secret| == 64 && forall c | c in secret :: c in "0123456789abcdefABCDEF"
  {
    forall c ensures IsHexDigit(c) <==> c in "0123456789abcdefABCDEF" {
      DigitsInBothCases(c);
    }
    assert AllHex(secret) <==> forall c | c in secret :: IsHexDigit(c);
  }

  /** Sixty-four hexadecimal digits are sent as they are; any other secret is quoted. */
  lemma PskForm(secret: string)
    ensures var raw := |secret| == 64 && forall c | c in secret :: c in "0123456789abcdefABCDEF";
      PskValue(secret) == if raw then secret else Quote(secret)
  {
    RawPskIs(secret);
  }
}
