/** The decoder one escape at a time: what each stands for, written out, whatever text follows it. */
module PrintfUnits {
  import opened Octets
  import opened Printf
  import opened PrintfLaws
  import opened Text
  import opened Wrappers

  /** The letter of an escape and the octet it stands for. */
  predicate Stands(c: char, o: Octet) {
    (c == '\\' && o == 0x5C) || (c == '\"' && o == 0x22) || (c == 'n' && o == 0x0A)
    || (c == 'r' && o == 0x0D) || (c == 't' && o == 0x09) || (c == 'e' && o == 0x1B)
  }

  lemma NamedReads(c: char, o: Octet, rest: string)
    requires Stands(c, o)
    ensures Decoded("\\" + [c] + rest) == [o] + Decoded(rest)
  {
    var text := "\\" + [c] + rest;
    assert text[1] == c;
    DecodedFrom(text, 2, rest);
  }

  /** The characters that begin an escape after a backslash. */
  predicate BeginsEscape(c: char) {
    c in "\\\"nrtex01234567"
  }

  /** A backslash before any other character is dropped, and the character kept. */
  lemma OtherReads(c: char, rest: string)
    requires !BeginsEscape(c)
    ensures Decoded("\\" + [c] + rest) == Utf8Char(c) + Decoded(rest)
  {
    OtherIsNoEscape(c);
    LenientReads(c, rest);
    DecodedFrom([c] + rest, 1, rest);
  }

  lemma OtherIsNoEscape(c: char)
    requires !BeginsEscape(c)
    ensures NamedEscape(c).None? && !IsOctalDigit(c) && c != 'x' && c != '\\'
  {
  }

  lemma HexDigitsRead(digits: string, o: Octet, rest: string)
    requires 1 <= |digits| <= 2 && AllHex(digits) && (|digits| == 2 || rest == "" || !IsHexDigit(rest[0]))
    requires HexNumber(digits) == o
    ensures Decoded("\\x" + digits + rest) == [o] + Decoded(rest)
  {
    var text := "\\x" + digits + rest;
    assert text[2..] == digits + rest;
    HexRunAtLeast(digits, 2, digits);
    HexRunOfAppend(digits, rest, 2);
    assert text[2..2 + |digits|] == digits && text[2 + |digits|..] == rest;
    DecodedFrom(text, 2 + |digits|, rest);
  }

  /** The value of one hexadecimal digit or of two. */
  predicate SpellsHex(digits: string, o: Octet)
    requires AllHex(digits)
  {
    match |digits|
    case 1 => o == HexValue(digits[0])
    case 2 => o == 16 * HexValue(digits[0]) + HexValue(digits[1])
    case _ => false
  }

  lemma HexSpelled(digits: string, o: Octet)
    requires AllHex(digits) && SpellsHex(digits, o)
    ensures 1 <= |digits| <= 2 && HexNumber(digits) == o
  {
    var first := digits[..1];
    assert first[..0] == "";
    assert HexNumber(first) == HexValue(digits[0]);
    assert |digits| == 1 ==> digits == first;
  }

  /** Two hexadecimal digits of either case, before anything at all, or one before anything else. */
  lemma HexReads(digits: string, o: Octet, rest: string)
    requires AllHex(digits) && SpellsHex(digits, o) && (|digits| == 2 || rest == "" || !IsHexDigit(rest[0]))
    ensures Decoded("\\x" + digits + rest) == [o] + Decoded(rest)
  {
    HexSpelled(digits, o);
    HexDigitsRead(digits, o, rest);
  }

  lemma OctalDigitsRead(digits: string, o: Octet, rest: string)
    requires 1 <= |digits| <= 2 && AllOctal(digits) && (rest == "" || !IsOctalDigit(rest[0]))
    requires OctalNumber(digits) % 256 == o
    ensures Decoded("\\" + digits + rest) == [o] + Decoded(rest)
  {
    var text := "\\" + digits + rest;
    assert text[1..] == digits + rest && text[1] == digits[0];
    OctalRunAtLeast(digits, 3, digits);
    OctalRunOfAppend(digits, rest, 3);
    assert text[1..1 + |digits|] == digits && text[1 + |digits|..] == rest;
    DecodedFrom(text, 1 + |digits|, rest);
  }

  /** The value of one octal digit or of two. */
  predicate SpellsOctal(digits: string, o: Octet)
    requires AllOctal(digits)
  {
    match |digits|
    case 1 => o == digits[0] as int - 48
    case 2 => o == 8 * (digits[0] as int - 48) + (digits[1] as int - 48)
    case _ => false
  }

  lemma OctalSpelled(digits: string, o: Octet)
    requires AllOctal(digits) && SpellsOctal(digits, o)
    ensures 1 <= |digits| <= 2 && OctalNumber(digits) % 256 == o
  {
    var first := digits[..1];
    assert first[..0] == "";
    assert OctalNumber(first) == digits[0] as int - 48;
    assert |digits| == 1 ==> digits == first;
  }

  /** Fewer than three octal digits, before anything else. */
  lemma ShortOctalReads(digits: string, o: Octet, rest: string)
    requires AllOctal(digits) && SpellsOctal(digits, o) && (rest == "" || !IsOctalDigit(rest[0]))
    ensures Decoded("\\" + digits + rest) == [o] + Decoded(rest)
  {
    OctalSpelled(digits, o);
    OctalDigitsRead(digits, o, rest);
  }

  lemma PlainRead(c: char, rest: string)
    requires c != '\\'
    ensures Decoded([c] + rest) == Utf8Char(c) + Decoded(rest)
  {
    DecodedFrom([c] + rest, 1, rest);
  }

  /** Text without a backslash is read as its UTF-8 form, which reads back as that text. */
  lemma {:induction false} PlainReads(s: string, rest: string)
    requires '\\' !in s
    ensures Decoded(s + rest) == Utf8(s) + Decoded(rest)
  {
    if s == "" {
      assert s + rest == rest;
    } else {
      assert s + rest == [s[0]] + (s[1..] + rest);
      PlainRead(s[0], s[1..] + rest);
      PlainReads(s[1..], rest);
      Associate(Utf8Char(s[0]), Utf8(s[1..]), Decoded(rest));
    }
  }

  lemma PlainTextIsKept(s: string)
    requires '\\' !in s
    ensures DecodeUtf8(Decoded(s)) == Some(s)
  {
    PlainReads(s, "");
    assert s + "" == s && Utf8(s) + [] == Utf8(s);
    DecodesExactly(Utf8(s), s);
  }

  /** What the daemon prints for an octet. */
  lemma EncodedOctetIs(o: Octet, c: char)
    ensures Stands(c, o) ==> EncodedOctet(o) == ['\\', c]
    ensures 32 <= o <= 126 && o != 0x22 && o != 0x5C ==> EncodedOctet(o) == [o as char]
    ensures (o < 32 && o != 9 && o != 10 && o != 13 && o != 27) || 126 < o ==>
      EncodedOctet(o) == "\\x" + Hex([o])
  {
    assert Hex([o]) == [HexDigit(o / 16), HexDigit(o % 16)] + Hex([o][1..]);
    assert Hex([o][1..]) == "";
  }
}
