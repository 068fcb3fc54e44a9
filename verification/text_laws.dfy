/** What the text operations mean: the characters they know, and which texts int() takes. */
module TextLaws {
  import opened Text
  import opened Wrappers

  // ----- characters

  lemma DigitsAre(c: char, d: nat)
    requires d < 10
    ensures IsDigit(c) <==> c in "0123456789"
    ensures Digit(d) == "0123456789"[d]
    ensures IsDigit(c) ==> (DigitValue(c) == d <==> c == "0123456789"[d])
  {
    if IsDigit(c) {
      assert c == "0123456789"[DigitValue(c)];
    }
  }

  /** A character between two others ends a line exactly when it is one of these. */
  lemma LineBreaksAre(c: char)
    ensures SplitLines("a" + [c] + "b") == ["a", "b"]
       <==> c as int in {0x0A, 0x0B, 0x0C, 0x0D, 0x1C, 0x1D, 0x1E, 0x85, 0x2028, 0x2029}
  {
    if IsLineBreak(c) {
      SplitLinesStep("a", [c], "b");
      SplitLinesLast("b");
      assert ["a"] + ["b"] == ["a", "b"];
    } else {
      SplitLinesLast("a" + [c] + "b");
    }
  }

  // ----- strip

  predicate Blank(s: string) {
    forall i | 0 <= i < |s| :: IsSpace(s[i])
  }

  lemma BlankMore(c: char, s: string)
    requires IsSpace(c) && Blank(s)
    ensures Blank([c] + s) && Blank(s + [c])
  {
  }

  lemma OneOff(before: string, core: string, after: string, c: char)
    ensures [c] + (before + core + after) == [c] + before + core + after
    ensures before + core + after + [c] == before + core + (after + [c])
  {
  }

  /** Strip takes white space off both ends and nothing else. */
  lemma {:induction false} StripIs(s: string) returns (before: string, after: string)
    ensures s == before + Strip(s) + after && Blank(before) && Blank(after)
    decreases |s|
  {
    before, after := "", "";
    if s != "" && IsSpace(s[0]) {
      before, after := StripIs(s[1..]);
      OneOff(before, Strip(s), after, s[0]);
      BlankMore(s[0], before);
      before := [s[0]] + before;
    } else if s != "" && IsSpace(s[|s| - 1]) {
      before, after := StripIs(s[..|s| - 1]);
      InitLast(s);
      OneOff(before, Strip(s), after, s[|s| - 1]);
      BlankMore(s[|s| - 1], after);
      after := after + [s[|s| - 1]];
    }
  }

  lemma {:induction false} StripOf(before: string, core: string, after: string)
    requires Blank(before) && Blank(after)
    requires core != "" && !IsSpace(core[0]) && !IsSpace(core[|core| - 1])
    ensures Strip(before + core + after) == core
    decreases |before| + |after|
  {
    var s := before + core + after;
    if before != "" {
      assert s[1..] == before[1..] + core + after;
      StripOf(before[1..], core, after);
    } else if after != "" {
      assert s[0] == core[0] && s[|s| - 1] == after[|after| - 1];
      assert s[..|s| - 1] == before + core + after[..|after| - 1];
      StripOf(before, core, after[..|after| - 1]);
    } else {
      assert s == core;
    }
  }

  // ----- the texts int() takes

  /** Digits, with single underscores between them. */
  predicate Numeral(s: string) {
    s != "" && IsDigit(s[0]) && Continues(s)
  }

  /** Each underscore stands before a digit, and all else is digits. */
  predicate Continues(s: string) {
    forall k | 0 <= k < |s| :: IsDigit(s[k]) || UnderscoreAt(s, k)
  }

  predicate UnderscoreAt(s: string, k: nat)
    requires k < |s|
  {
    s[k] == '_' && k + 1 < |s| && IsDigit(s[k + 1])
  }

  lemma ContinuesAfter(s: string)
    requires s != ""
    ensures Continues(s) <==> (IsDigit(s[0]) || UnderscoreAt(s, 0)) && Continues(s[1..])
  {
    var rest := s[1..];
    forall k | 0 <= k < |rest|
      ensures IsDigit(rest[k]) || UnderscoreAt(rest, k) <==> IsDigit(s[k + 1]) || UnderscoreAt(s, k + 1)
    {
    }
    if Continues(rest) && (IsDigit(s[0]) || UnderscoreAt(s, 0)) {
      forall k | 0 <= k < |s| ensures IsDigit(s[k]) || UnderscoreAt(s, k) {
        assert k > 0 ==> rest[k - 1] == s[k] && (IsDigit(rest[k - 1]) || UnderscoreAt(rest, k - 1));
      }
    }
  }

  /** The number the digits write after those of value, underscores not counted: each digit ten times the one
      behind it. */
  function Written(value: nat, s: string): nat {
    if s == "" then value
    else
      var earlier, last := Written(value, s[..|s| - 1]), s[|s| - 1];
      if IsDigit(last) then 10 * earlier + DigitValue(last) else earlier
  }

  lemma {:induction false} WrittenAfter(value: nat, s: string)
    requires s != ""
    ensures Written(value, s) == Written(if IsDigit(s[0]) then 10 * value + DigitValue(s[0]) else value, s[1..])
  {
    var n := |s| - 1;
    if n > 0 {
      WrittenAfter(value, s[..n]);
      assert s[..n][1..] == s[1..][..n - 1];
    } else {
      assert s[..0] == "" && s[1..] == "";
    }
  }

  lemma {:induction false} ParseDigitsIs(s: string, value: nat, needDigit: bool)
    ensures ParseDigits(s, value, needDigit)
         == if Continues(s) && (needDigit ==> Numeral(s)) then Some(Written(value, s)) else None
  {
    if s != "" {
      ContinuesAfter(s);
      WrittenAfter(value, s);
      if IsDigit(s[0]) {
        ParseDigitsIs(s[1..], 10 * value + DigitValue(s[0]), false);
      } else {
        ParseDigitsIs(s[1..], value, true);
        assert |s| > 1 ==> s[1..][0] == s[1];
      }
    }
  }

  predicate IsSign(sign: string) {
    |sign| == 0 || (|sign| == 1 && (sign[0] == '+' || sign[0] == '-'))
  }

  lemma NumeralEnds(s: string)
    requires Numeral(s)
    ensures IsDigit(s[|s| - 1])
  {
    assert !UnderscoreAt(s, |s| - 1);
  }

  function Signed(sign: string, n: nat): int {
    if sign != "" && sign[0] == '-' then 0 - n else n
  }

  lemma SignedDigits(s: string, t: string, sign: string, digits: string, n: nat)
    requires IsSign(sign) && digits != "" && IsDigit(digits[0]) && ParseDigits(digits, 0, true) == Some(n)
    requires t == sign + digits && Strip(s) == t
    ensures ParseInt(s) == Some(Signed(sign, n))
  {
    if sign == "" {
      assert t == digits;
    } else {
      assert t[0] == sign[0] && t[1..] == digits;
    }
  }

  /** int() takes a numeral with a sign or none, amid white space, and gives its value. */
  lemma ParseIntTakes(before: string, sign: string, digits: string, after: string)
    requires Blank(before) && IsSign(sign) && Numeral(digits) && Blank(after)
    ensures ParseInt(before + (sign + digits) + after) == Some(Signed(sign, Written(0, digits)))
  {
    var core := sign + digits;
    NumeralEnds(digits);
    assert core[|core| - 1] == digits[|digits| - 1];
    assert core[0] == if sign == "" then digits[0] else sign[0];
    StripOf(before, core, after);
    ParseDigitsIs(digits, 0, true);
    SignedDigits(before + core + after, core, sign, digits, Written(0, digits));
  }

  /** And it takes nothing else. */
  lemma ParseIntTakesOnly(s: string) returns (before: string, sign: string, digits: string, after: string)
    requires ParseInt(s).Some?
    ensures s == before + (sign + digits) + after
    ensures Blank(before) && IsSign(sign) && Numeral(digits) && Blank(after)
  {
    before, after := StripIs(s);
    var t := Strip(s);
    sign := if t[0] == '-' || t[0] == '+' then [t[0]] else "";
    digits := t[|sign|..];
    assert t == sign + digits;
    assert sign == "" ==> digits == t;
    ParseDigitsIs(digits, 0, true);
  }

  /** A number is printed without a zero in front. */
  lemma {:induction false} DecimalFront(n: nat)
    ensures Decimal(n)[0] == '0' ==> n == 0 && Decimal(n) == "0"
    ensures Numeral(Decimal(n)) && Written(0, Decimal(n)) == n
  {
    ParseDecimal(n);
    ParseDigitsIs(Decimal(n), 0, true);
    if n >= 10 {
      DecimalFront(n / 10);
      assert Decimal(n)[0] == Decimal(n / 10)[0];
    }
  }
}
