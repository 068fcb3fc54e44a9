/** The text operations of Python that the client is written with: partition, split, join, splitlines,
    strip, and int() on decimal text. Strings are sequences of Unicode scalar values. */
module Text {
  import opened Wrappers

  lemma Associate<T>(a: seq<T>, b: seq<T>, c: seq<T>)
    ensures a + b + c == a + (b + c)
  {
  }

  lemma DropAppend<T>(a: seq<T>, b: seq<T>, k: nat)
    requires k <= |a|
    ensures (a + b)[k..] == a[k..] + b
  {
  }

  /** A prefix and the element after it. */
  lemma OneMore<T>(s: seq<T>, i: nat)
    requires i < |s|
    ensures s[..i + 1] == s[..i] + [s[i]]
    ensures s[..i + 1][..i] == s[..i]
  {
  }

  lemma InitLast<T>(s: seq<T>)
    requires s != []
    ensures s == s[..|s| - 1] + [s[|s| - 1]]
  {
  }

  /** A sequence with x in it, but for its last element, and the same without x. */
  lemma OneLonger<T>(a: seq<T>, x: T, b: seq<T>)
    requires b != []
    ensures var n := |b| - 1;
      a + ([x] + b) == a + ([x] + b[..n]) + [b[n]] && a + b == a + b[..n] + [b[n]]
  {
  }

  // ----- the order of a dictionary

  /** Setting a key: a new one goes last, one that is there keeps its place. */
  function Entered(keys: seq<string>, key: string): (r: seq<string>)
    ensures key in r && keys <= r
  {
    if key in keys then keys else keys + [key]
  }

  predicate NoRepeat(keys: seq<string>) {
    forall i, j | 0 <= i < j < |keys| :: keys[i] != keys[j]
  }

  /** The keys of the dictionary, each once. */
  ghost predicate OrderOfMap<T>(keys: seq<string>, m: map<string, T>) {
    NoRepeat(keys) && forall key :: key in keys <==> key in m
  }

  lemma EnteredOrder<T>(keys: seq<string>, m: map<string, T>, key: string, value: T)
    requires OrderOfMap(keys, m)
    ensures OrderOfMap(Entered(keys, key), m[key := value])
  {
  }

  // ----- partition and rpartition by one character

  /** The position of the first c in s, or |s| when there is none. */
  function IndexOf(s: string, c: char): (i: nat)
    ensures i <= |s|
    ensures c !in s[..i]
    ensures i < |s| ==> s[i] == c
  {
    if s == "" || s[0] == c then 0
    else
      var i := IndexOf(s[1..], c);
      assert s[..i + 1] == [s[0]] + s[1..][..i];
      i + 1
  }

  lemma {:induction false} IndexOfFirst(a: string, c: char, b: string)
    requires c !in a
    ensures IndexOf(a + [c] + b, c) == |a|
  {
    if a != "" {
      IndexOfFirst(a[1..], c, b);
      assert (a + [c] + b)[1..] == a[1..] + [c] + b;
    }
  }

  lemma IndexOfNone(s: string, c: char)
    requires c !in s
    ensures IndexOf(s, c) == |s|
  {
  }

  /** What s.partition(c) answers: found says whether the separator was there. */
  datatype Parts = Parts(head: string, found: bool, tail: string)

  function Partition(s: string, c: char): (p: Parts)
    ensures p.found ==> s == p.head + [c] + p.tail && c !in p.head
    ensures !p.found ==> p == Parts(s, false, "") && c !in s
  {
    var i := IndexOf(s, c);
    if i < |s| then
      assert s == s[..i] + [s[i]] + s[i + 1..];
      Parts(s[..i], true, s[i + 1..])
    else
      assert s[..i] == s;
      Parts(s, false, "")
  }

  lemma PartitionAt(a: string, c: char, b: string)
    requires c !in a
    ensures Partition(a + [c] + b, c) == Parts(a, true, b)
  {
    IndexOfFirst(a, c, b);
    assert (a + [c] + b)[..|a|] == a;
    assert (a + [c] + b)[|a| + 1..] == b;
  }

  /** What s.rpartition(c) answers: the split is at the last c. */
  function RPartition(s: string, c: char): (p: Parts)
    ensures p.found ==> s == p.head + [c] + p.tail && c !in p.tail
    ensures !p.found ==> p == Parts("", false, s) && c !in s
  {
    if s == "" then Parts("", false, "")
    else if s[|s| - 1] == c then
      assert s == s[..|s| - 1] + [c] + "";
      Parts(s[..|s| - 1], true, "")
    else
      var p := RPartition(s[..|s| - 1], c);
      assert s == s[..|s| - 1] + [s[|s| - 1]];
      if p.found then Parts(p.head, true, p.tail + [s[|s| - 1]]) else Parts("", false, s)
  }

  // ----- split and join

  /** s.split(c) for one character c: never empty, the pieces between the separators. */
  function Split(s: string, c: char): (pieces: seq<string>)
    ensures |pieces| >= 1
    decreases |s|
  {
    var i := IndexOf(s, c);
    if i == |s| then
      assert s[..i] == s;
      [s]
    else [s[..i]] + Split(s[i + 1..], c)
  }

  function Join(sep: string, parts: seq<string>): string {
    if parts == [] then ""
    else if |parts| == 1 then parts[0]
    else parts[0] + sep + Join(sep, parts[1..])
  }

  lemma SplitFirst(head: string, c: char, rest: string)
    requires c !in head
    ensures Split(head + [c] + rest, c) == [head] + Split(rest, c)
  {
    var s := head + [c] + rest;
    IndexOfFirst(head, c, rest);
    assert s[..|head|] == head;
    assert s[|head| + 1..] == rest;
  }

  lemma Regroup(head: string, c: char, rest: string, b: string)
    ensures head + [c] + rest + [c] + b == head + [c] + (rest + [c] + b)
  {
  }

  lemma {:induction false} SplitAt(a: string, c: char, b: string)
    ensures Split(a + [c] + b, c) == Split(a, c) + Split(b, c)
    decreases |a|
  {
    var i := IndexOf(a, c);
    if i == |a| {
      assert a[..i] == a;
      SplitFirst(a, c, b);
    } else {
      var head, rest := a[..i], a[i + 1..];
      assert a == head + [c] + rest;
      calc {
        Split(a + [c] + b, c);
        { Regroup(head, c, rest, b); }
        Split(head + [c] + (rest + [c] + b), c);
        { SplitFirst(head, c, rest + [c] + b); }
        [head] + Split(rest + [c] + b, c);
        { SplitAt(rest, c, b); }
        [head] + (Split(rest, c) + Split(b, c));
        { Associate([head], Split(rest, c), Split(b, c)); }
        [head] + Split(rest, c) + Split(b, c);
        { SplitFirst(head, c, rest); }
        Split(a, c) + Split(b, c);
      }
    }
  }

  lemma {:induction false} SplitJoin(parts: seq<string>, c: char)
    requires parts != []
    requires forall i | 0 <= i < |parts| :: c !in parts[i]
    ensures Split(Join([c], parts), c) == parts
  {
    if |parts| == 1 {
      assert parts == [parts[0]];
      IndexOfNone(parts[0], c);
    } else {
      SplitJoin(parts[1..], c);
      SplitFirst(parts[0], c, Join([c], parts[1..]));
      assert parts == [parts[0]] + parts[1..];
    }
  }

  lemma JoinBefore(sep: string, head: string, others: seq<string>)
    requires others != []
    ensures Join(sep, [head] + others) == head + sep + Join(sep, others)
  {
    assert ([head] + others)[1..] == others;
  }

  lemma JoinSplitStep(head: string, c: char, rest: string)
    requires c !in head && Join([c], Split(rest, c)) == rest
    ensures Join([c], Split(head + [c] + rest, c)) == head + [c] + rest
  {
    SplitFirst(head, c, rest);
    JoinBefore([c], head, Split(rest, c));
  }

  lemma SplitNone(s: string, c: char)
    requires c !in s
    ensures Split(s, c) == [s]
  {
    IndexOfNone(s, c);
  }

  lemma {:induction false} JoinSplit(s: string, c: char)
    ensures Join([c], Split(s, c)) == s
    decreases |s|
  {
    var p := Partition(s, c);
    if p.found {
      JoinSplit(p.tail, c);
      JoinSplitStep(p.head, c, p.tail);
    } else {
      SplitNone(s, c);
    }
  }

  lemma {:induction false} JoinAppend(sep: string, a: seq<string>, b: seq<string>)
    requires a != [] && b != []
    ensures Join(sep, a + b) == Join(sep, a) + sep + Join(sep, b)
  {
    if |a| == 1 {
      assert (a + b)[1..] == b;
    } else {
      assert (a + b)[1..] == a[1..] + b;
      JoinAppend(sep, a[1..], b);
      assert a[0] + sep + (Join(sep, a[1..]) + sep + Join(sep, b))
          == a[0] + sep + Join(sep, a[1..]) + sep + Join(sep, b);
    }
  }

  // ----- splitlines

  /** The characters str.splitlines() breaks on. */
  predicate IsLineBreak(c: char) {
    c == '\n' || c == '\r' || c == '\U{0B}' || c == '\U{0C}' || c == '\U{1C}' || c == '\U{1D}'
    || c == '\U{1E}' || c == '\U{85}' || c == '\U{2028}' || c == '\U{2029}'
  }

  predicate OneLine(s: string) {
    forall i | 0 <= i < |s| :: !IsLineBreak(s[i])
  }

  /** The length of the first line of s, its terminator not counted. */
  function LineLength(s: string): (i: nat)
    ensures i <= |s|
    ensures OneLine(s[..i])
    ensures i < |s| ==> IsLineBreak(s[i])
  {
    if s == "" || IsLineBreak(s[0]) then 0 else 1 + LineLength(s[1..])
  }

  /** A carriage return and the line feed after it are one terminator. */
  function BreakLength(s: string, i: nat): (n: nat)
    requires i < |s|
    ensures 1 <= n && i + n <= |s|
  {
    if s[i] == '\r' && i + 1 < |s| && s[i + 1] == '\n' then 2 else 1
  }

  function SplitLines(s: string): seq<string>
    decreases |s|
  {
    if s == "" then []
    else
      var i := LineLength(s);
      if i == |s| then [s] else [s[..i]] + SplitLines(s[i + BreakLength(s, i)..])
  }

  lemma {:induction false} LineLengthIs(line: string, rest: string)
    requires OneLine(line)
    requires rest == "" || IsLineBreak(rest[0])
    ensures LineLength(line + rest) == |line|
  {
    if line == "" {
      assert line + rest == rest;
    } else {
      LineLengthIs(line[1..], rest);
      assert (line + rest)[1..] == line[1..] + rest;
    }
  }

  lemma SplitLinesLast(line: string)
    requires OneLine(line) && line != ""
    ensures SplitLines(line) == [line]
  {
    assert line + "" == line;
    LineLengthIs(line, "");
  }

  lemma SplitLinesStep(line: string, terminator: string, rest: string)
    requires OneLine(line)
    requires terminator == "\r\n" || (|terminator| == 1 && IsLineBreak(terminator[0]))
    requires terminator == "\r" ==> rest == "" || rest[0] != '\n'
    ensures SplitLines(line + terminator + rest) == [line] + SplitLines(rest)
  {
    var s := line + terminator + rest;
    Associate(line, terminator, rest);
    LineLengthIs(line, terminator + rest);
    DropAppend(line, terminator + rest, |line|);
    DropAppend(line + terminator, rest, |line + terminator|);
    assert s[..|line|] == line && s[|line|] == terminator[0];
    assert |terminator| == 2 ==> s[|line| + 1] == '\n';
  }

  predicate EndsLine(s: string) {
    s == "" || s[|s| - 1] == '\n'
  }

  lemma ThreeParts<T>(s: seq<T>, i: nat, n: nat)
    requires i + n <= |s|
    ensures s == s[..i] + s[i..i + n] + s[i + n..]
  {
  }

  lemma FirstLine(a: string) returns (line: string, terminator: string, rest: string)
    requires a != "" && EndsLine(a)
    ensures a == line + terminator + rest && OneLine(line)
    ensures terminator == "\r\n" || (|terminator| == 1 && IsLineBreak(terminator[0]))
    ensures terminator == "\r" ==> rest != "" && rest[0] != '\n'
    ensures EndsLine(rest)
  {
    var i := LineLength(a);
    assert i == |a| ==> IsLineBreak(a[..i][i - 1]);
    var n := BreakLength(a, i);
    line, terminator, rest := a[..i], a[i..i + n], a[i + n..];
    ThreeParts(a, i, n);
    assert terminator[0] == a[i] && (n == 2 ==> terminator[1] == '\n');
    assert rest != "" ==> rest[0] == a[i + n] && rest[|rest| - 1] == a[|a| - 1];
  }

  /** Text that ends in a line feed splits independently of what follows it. */
  lemma {:induction false} SplitLinesAfter(a: string, b: string)
    requires EndsLine(a)
    ensures SplitLines(a + b) == SplitLines(a) + SplitLines(b)
    decreases |a|
  {
    if a == "" {
      assert a + b == b;
    } else {
      var line, terminator, rest := FirstLine(a);
      calc {
        SplitLines(a + b);
        { Associate(line + terminator, rest, b); }
        SplitLines(line + terminator + (rest + b));
        { SplitLinesStep(line, terminator, rest + b); }
        [line] + SplitLines(rest + b);
        { SplitLinesAfter(rest, b); }
        [line] + (SplitLines(rest) + SplitLines(b));
        { Associate([line], SplitLines(rest), SplitLines(b)); }
        [line] + SplitLines(rest) + SplitLines(b);
        { SplitLinesStep(line, terminator, rest); }
        SplitLines(a) + SplitLines(b);
      }
    }
  }

  // ----- strip

  /** s.rstrip(c) for one character. */
  function RStrip(s: string, c: char): (r: string)
    ensures r <= s
    ensures r != "" ==> r[|r| - 1] != c
    ensures forall i | |r| <= i < |s| :: s[i] == c
  {
    if s != "" && s[|s| - 1] == c then RStrip(s[..|s| - 1], c) else s
  }

  function Repeated(c: char, n: nat): string {
    if n == 0 then "" else Repeated(c, n - 1) + [c]
  }

  lemma {:induction false} RStripRepeated(s: string, c: char, n: nat)
    requires s == "" || s[|s| - 1] != c
    ensures RStrip(s + Repeated(c, n), c) == s
  {
    if n > 0 {
      RStripRepeated(s, c, n - 1);
      var longer := s + Repeated(c, n);
      assert longer[..|longer| - 1] == s + Repeated(c, n - 1);
    } else {
      assert s + "" == s;
    }
  }

  /** The characters str.strip() removes. */
  predicate IsSpace(c: char) {
    var n := c as int;
    9 <= n <= 13 || 28 <= n <= 32 || n == 0x85 || n == 0xA0 || n == 0x1680 || 0x2000 <= n <= 0x200A
    || n == 0x2028 || n == 0x2029 || n == 0x202F || n == 0x205F || n == 0x3000
  }

  /** s.strip(): the longest stretch of s that neither begins nor ends with white space. */
  function Strip(s: string): (r: string)
    ensures r == "" <==> forall i | 0 <= i < |s| :: IsSpace(s[i])
    ensures r != "" ==> !IsSpace(r[0]) && !IsSpace(r[|r| - 1])
    ensures (s != "" ==> !IsSpace(s[0]) && !IsSpace(s[|s| - 1])) ==> r == s
  {
    if s == "" then ""
    else if IsSpace(s[0]) then
      assert forall i | 1 <= i < |s| :: s[i] == s[1..][i - 1];
      Strip(s[1..])
    else if IsSpace(s[|s| - 1]) then Strip(s[..|s| - 1])
    else s
  }

  // ----- int() and its inverse

  predicate IsDigit(c: char) {
    '0' <= c <= '9'
  }

  function DigitValue(c: char): (d: nat)
    requires IsDigit(c)
    ensures d < 10
  {
    c as int - '0' as int
  }

  function Digit(d: nat): (c: char)
    requires d < 10
    ensures IsDigit(c) && DigitValue(c) == d
  {
    '0' + d as char
  }

  /** Digits, single underscores allowed between them. */
  function ParseDigits(s: string, value: nat, needDigit: bool): Option<nat> {
    if s == "" then
      if needDigit then None else Some(value)
    else if IsDigit(s[0]) then ParseDigits(s[1..], 10 * value + DigitValue(s[0]), false)
    else if s[0] == '_' && !needDigit then ParseDigits(s[1..], value, true)
    else None
  }

  /** int(s) in base ten; None where Python raises ValueError. */
  function ParseInt(s: string): Option<int> {
    var t := Strip(s);
    if t == "" then None
    else
      var signed := t[0] == '-' || t[0] == '+';
      match ParseDigits(if signed then t[1..] else t, 0, true)
      case None => None
      case Some(n) => Some(if t[0] == '-' then 0 - n else n)
  }

  /** str(n) for a natural number. */
  function Decimal(n: nat): (s: string)
    ensures s != "" && forall i | 0 <= i < |s| :: IsDigit(s[i])
  {
    if n < 10 then [Digit(n)] else Decimal(n / 10) + [Digit(n % 10)]
  }

  /** str(i) for an integer. */
  function IntText(i: int): (s: string)
    ensures s != "" && OneLine(s) && forall k | 0 <= k < |s| :: IsDigit(s[k]) || s[k] == '-'
  {
    if i < 0 then "-" + Decimal(-i) else Decimal(i)
  }

  lemma {:induction false} ParseDigitsAppend(s: string, d: nat, value: nat, needDigit: bool)
    requires s != "" && d < 10
    requires forall i | 0 <= i < |s| :: IsDigit(s[i])
    requires ParseDigits(s, value, needDigit).Some?
    ensures ParseDigits(s + [Digit(d)], value, needDigit)
         == Some(10 * ParseDigits(s, value, needDigit).value + d)
  {
    var next := 10 * value + DigitValue(s[0]);
    assert (s + [Digit(d)])[1..] == s[1..] + [Digit(d)];
    if |s| == 1 {
      assert s[1..] + [Digit(d)] == [Digit(d)];
      assert ParseDigits([Digit(d)], next, false) == ParseDigits("", 10 * next + d, false);
    } else {
      ParseDigitsAppend(s[1..], d, next, false);
    }
  }

  lemma {:induction false} ParseDecimal(n: nat)
    ensures ParseDigits(Decimal(n), 0, true) == Some(n)
  {
    if n < 10 {
      assert [Digit(n)][1..] == "";
    } else {
      ParseDecimal(n / 10);
      ParseDigitsAppend(Decimal(n / 10), n % 10, 0, true);
    }
  }

  /** int(str(i)) == i. */
  lemma ParseIntText(i: int)
    ensures ParseInt(IntText(i)) == Some(i)
  {
    var s := IntText(i);
    assert Strip(s) == s;
    if i < 0 {
      assert s[1..] == Decimal(-i);
      ParseDecimal(-i);
    } else {
      ParseDecimal(i);
    }
  }

  lemma IntTextInjective(i: int, j: int)
    requires IntText(i) == IntText(j)
    ensures i == j
  {
    ParseIntText(i);
    ParseIntText(j);
  }
}
