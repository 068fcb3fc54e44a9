/** What is true of splitting a payload and of reading its pairs back. */
module EventLaws {
  import opened Events
  import opened Octets
  import opened PrintfLaws
  import opened Text
  import opened Wrappers

  // ----- tokens

  /** No character of s, read from mode m on, separates tokens. */
  predicate Unbroken(m: Mode, s: string)
    decreases |s|
  {
    s == "" || (!IsBreak(m, s[0]) && Unbroken(After(m, s[0]), s[1..]))
  }

  predicate IsToken(s: string) {
    s != "" && Unbroken(Plain, s)
  }

  /** Each is a token, and each but the last leaves the scan outside quotes. */
  predicate AreTokens(tokens: seq<string>) {
    && (forall i | 0 <= i < |tokens| :: IsToken(tokens[i]))
    && (forall i | 0 <= i < |tokens| - 1 :: Run(Plain, tokens[i]) == Plain)
  }

  /** The text without the spaces outside quotes. */
  function Solid(m: Mode, text: string): string
    decreases |text|
  {
    if text == "" then ""
    else (if IsBreak(m, text[0]) then "" else [text[0]]) + Solid(After(m, text[0]), text[1..])
  }

  lemma {:induction false} RunAppend(m: Mode, a: string, b: string)
    ensures Run(m, a + b) == Run(Run(m, a), b)
    ensures Unbroken(m, a + b) <==> Unbroken(m, a) && Unbroken(Run(m, a), b)
    decreases |a|
  {
    if a == "" {
      assert a + b == b;
    } else {
      assert (a + b)[1..] == a[1..] + b;
      RunAppend(After(m, a[0]), a[1..], b);
    }
  }

  /** An unbroken text is read whole before the scan goes on. */
  lemma {:induction false} ScanUnbroken(current: string, m: Mode, s: string, rest: string)
    requires Unbroken(m, s)
    ensures Scan(current, m, s + rest) == Scan(current + s, Run(m, s), rest)
    decreases |s|
  {
    if s == "" {
      assert s + rest == rest && current + s == current;
    } else {
      assert (s + rest)[1..] == s[1..] + rest;
      ScanUnbroken(current + [s[0]], After(m, s[0]), s[1..], rest);
      assert current + [s[0]] + s[1..] == current + s;
    }
  }

  /** Tokens joined by single spaces split into those tokens. */
  lemma {:induction false} TokensOfJoin(tokens: seq<string>)
    requires AreTokens(tokens)
    ensures Tokens(Join(" ", tokens)) == tokens
  {
    if tokens != [] {
      var first, others := tokens[0], tokens[1..];
      assert IsToken(first) && tokens == [first] + others;
      assert AreTokens(others);
      if others == [] {
        assert first + "" == first && "" + first == first;
        ScanUnbroken("", Plain, first, "");
      } else {
        var rest := " " + Join(" ", others);
        assert Join(" ", tokens) == first + rest;
        ScanUnbroken("", Plain, first, rest);
        assert "" + first == first;
        assert rest[1..] == Join(" ", others);
        TokensOfJoin(others);
      }
    }
  }

  lemma {:induction false} ScanShape(current: string, m: Mode, text: string)
    requires Unbroken(Plain, current) && Run(Plain, current) == m
    ensures AreTokens(Scan(current, m, text))
    ensures Join("", Scan(current, m, text)) == current + Solid(m, text)
    decreases |text|
  {
    if text == "" {
    } else if IsBreak(m, text[0]) {
      var rest := Scan("", m, text[1..]);
      ScanShape("", m, text[1..]);
      assert "" + Solid(m, text[1..]) == Solid(m, text[1..]);
      assert "" + Solid(After(m, text[0]), text[1..]) == Solid(m, text[1..]);
      assert [] + rest == rest;
      if current != "" {
        JoinFirst(current, rest);
      }
    } else {
      var c := text[0];
      RunAppend(Plain, current, [c]);
      assert [c][1..] == "";
      ScanShape(current + [c], After(m, c), text[1..]);
      Associate(current, [c], Solid(After(m, c), text[1..]));
    }
  }

  lemma JoinFirst(first: string, rest: seq<string>)
    ensures Join("", [first] + rest) == first + Join("", rest)
  {
    assert ([first] + rest)[1..] == rest;
    assert first + "" + Join("", rest) == first + Join("", rest);
  }

  /** Splitting loses nothing but the spaces outside quotes: each piece is a token, and together they are
      the text without those spaces. */
  lemma SplittingIsLossless(text: string)
    ensures AreTokens(Tokens(text))
    ensures Join("", Tokens(text)) == Solid(Plain, text)
  {
    ScanShape("", Plain, text);
  }

  /** Splitting again what was split and joined changes nothing. */
  lemma SplittingIsStable(text: string)
    ensures Tokens(Join(" ", Tokens(text))) == Tokens(text)
  {
    SplittingIsLossless(text);
    TokensOfJoin(Tokens(text));
  }

  // ----- pairs

  /** A value as a payload prints it: as it is, or quoted and printf-escaped. */
  datatype Value = Bare(text: string) | Printed(octets: seq<Octet>)

  datatype Field = Field(key: string, value: Value)

  predicate CleanKey(s: string) {
    s != "" && ' ' !in s && '\"' !in s && '=' !in s
  }

  predicate CleanField(f: Field) {
    CleanKey(f.key) && (f.value.Bare? ==> ' ' !in f.value.text && '\"' !in f.value.text)
  }

  function ValueText(v: Value): string {
    match v
    case Bare(text) => text
    case Printed(b) => "\"" + Encoded(b) + "\""
  }

  function FieldText(f: Field): string {
    f.key + "=" + ValueText(f.value)
  }

  /** What a reader of the payload finds under the key. */
  function ReadValue(v: Value): string {
    match v
    case Bare(text) => text
    case Printed(b) => Encoded(b)
  }

  lemma {:induction false} RunPlain(s: string)
    requires ' ' !in s && '\"' !in s
    ensures Unbroken(Plain, s) && Run(Plain, s) == Plain
  {
    if s != "" {
      assert s[0] in s && forall c | c in s[1..] :: c in s;
      RunPlain(s[1..]);
    }
  }

  lemma RunOne(m: Mode, c: char)
    ensures Run(m, [c]) == After(m, c) && (Unbroken(m, [c]) <==> !IsBreak(m, c))
  {
    assert [c][1..] == "";
  }

  lemma RunEncodedOctet(o: Octet)
    ensures Unbroken(Quoted, EncodedOctet(o)) && Run(Quoted, EncodedOctet(o)) == Quoted
  {
    var s := EncodedOctet(o);
    RunOne(Quoted, s[0]);
    if |s| == 1 {
      assert s == [s[0]];
    } else {
      RunOne(Escaped, s[1]);
      RunAppend(Quoted, [s[0]], [s[1]]);
      assert s[..2] == [s[0]] + [s[1]];
      if |s| == 4 {
        RunOne(Quoted, s[2]);
        RunOne(Quoted, s[3]);
        RunAppend(Quoted, [s[2]], [s[3]]);
        RunAppend(Quoted, s[..2], [s[2]] + [s[3]]);
        assert s == s[..2] + ([s[2]] + [s[3]]);
      } else {
        assert s == s[..2];
      }
    }
  }

  /** Escaped text never closes the quotes around it: a backslash always has its character. */
  lemma {:induction false} RunEncoded(b: seq<Octet>)
    ensures Unbroken(Quoted, Encoded(b)) && Run(Quoted, Encoded(b)) == Quoted
  {
    if b != [] {
      RunEncodedOctet(b[0]);
      RunEncoded(b[1..]);
      RunAppend(Quoted, EncodedOctet(b[0]), Encoded(b[1..]));
    }
  }

  lemma RunField(f: Field)
    requires CleanField(f)
    ensures IsToken(FieldText(f)) && Run(Plain, FieldText(f)) == Plain
  {
    var head := f.key + "=";
    RunPlain(head);
    match f.value {
      case Bare(text) =>
        RunPlain(text);
        RunAppend(Plain, head, text);
      case Printed(b) =>
        RunEncoded(b);
        RunAppend(Quoted, Encoded(b), "\"");
        RunAppend(Plain, "\"", Encoded(b) + "\"");
        assert "\"" + (Encoded(b) + "\"") == ValueText(f.value);
        RunAppend(Plain, head, ValueText(f.value));
    }
  }

  lemma PairOfField(f: Field)
    requires CleanField(f)
    ensures PairOf(FieldText(f)) == Some((f.key, ReadValue(f.value)))
  {
    PartitionAt(f.key, '=', ValueText(f.value));
    match f.value {
      case Bare(text) =>
      case Printed(b) =>
        assert ValueText(f.value)[1..|ValueText(f.value)| - 1] == Encoded(b);
    }
  }

  function FieldTexts(fields: seq<Field>): (texts: seq<string>)
    ensures |texts| == |fields|
    ensures forall i | 0 <= i < |fields| :: texts[i] == FieldText(fields[i])
  {
    if fields == [] then [] else FieldTexts(fields[..|fields| - 1]) + [FieldText(fields[|fields| - 1])]
  }

  /** What the fields say, the last one winning where a key comes twice. */
  function FieldMap(fields: seq<Field>): map<string, string> {
    if fields == [] then map[]
    else
      var last := fields[|fields| - 1];
      FieldMap(fields[..|fields| - 1])[last.key := ReadValue(last.value)]
  }

  /** Every key is there, with the value of the last field that has it. */
  lemma {:induction false} FieldMapAt(fields: seq<Field>, i: nat)
    requires i < |fields|
    requires forall j | i < j < |fields| :: fields[j].key != fields[i].key
    ensures fields[i].key in FieldMap(fields)
    ensures FieldMap(fields)[fields[i].key] == ReadValue(fields[i].value)
    decreases |fields|
  {
    if i < |fields| - 1 {
      FieldMapAt(fields[..|fields| - 1], i);
    }
  }

  /** No key is there that no field has. */
  lemma {:induction false} FieldMapKeys(fields: seq<Field>)
    ensures FieldMap(fields).Keys == set f | f in fields :: f.key
  {
    if fields != [] {
      var earlier, last := fields[..|fields| - 1], fields[|fields| - 1];
      FieldMapKeys(earlier);
      assert fields == earlier + [last];
    }
  }

  lemma PairsOfMore(tokens: seq<string>, token: string)
    requires PairOf(token).Some?
    ensures PairsOf(tokens + [token]) == PairsOf(tokens)[PairOf(token).value.0 := PairOf(token).value.1]
  {
    assert (tokens + [token])[..|tokens|] == tokens;
  }

  lemma {:induction false} PairsOfFields(fields: seq<Field>)
    requires forall i | 0 <= i < |fields| :: CleanField(fields[i])
    ensures PairsOf(FieldTexts(fields)) == FieldMap(fields)
  {
    if fields != [] {
      var earlier, last := fields[..|fields| - 1], fields[|fields| - 1];
      PairsOfFields(earlier);
      PairOfField(last);
      PairsOfMore(FieldTexts(earlier), FieldText(last));
    }
  }

  lemma PayloadTokens(fields: seq<Field>)
    requires forall i | 0 <= i < |fields| :: CleanField(fields[i])
    ensures Tokens(Join(" ", FieldTexts(fields))) == FieldTexts(fields)
  {
    forall i | 0 <= i < |fields|
      ensures IsToken(FieldTexts(fields)[i]) && Run(Plain, FieldTexts(fields)[i]) == Plain
    {
      RunField(fields[i]);
    }
    TokensOfJoin(FieldTexts(fields));
  }

  /** Reading a printed payload gives back exactly its pairs, whatever octets the quoted values hold. */
  lemma PayloadReadsBack(fields: seq<Field>)
    requires forall i | 0 <= i < |fields| :: CleanField(fields[i])
    ensures Params(Join(" ", FieldTexts(fields))) == FieldMap(fields)
  {
    PayloadTokens(fields);
    PairsOfFields(fields);
  }

  // ----- the order of the pairs

  /** The order holds each key once. */
  lemma {:induction false} OrderIsOfPairs(tokens: seq<string>)
    ensures OrderOfMap(OrderOf(tokens), PairsOf(tokens))
  {
    if tokens != [] {
      var earlier := tokens[..|tokens| - 1];
      OrderIsOfPairs(earlier);
      match PairOf(tokens[|tokens| - 1]) {
        case None =>
        case Some((key, value)) => EnteredOrder(OrderOf(earlier), PairsOf(earlier), key, value);
      }
    }
  }

  function FieldKeys(fields: seq<Field>): (keys: seq<string>)
    ensures |keys| == |fields|
    ensures forall i | 0 <= i < |fields| :: keys[i] == fields[i].key
  {
    if fields == [] then [] else FieldKeys(fields[..|fields| - 1]) + [fields[|fields| - 1].key]
  }

  lemma OrderOfMore(tokens: seq<string>, token: string)
    requires PairOf(token).Some?
    ensures OrderOf(tokens + [token]) == Entered(OrderOf(tokens), PairOf(token).value.0)
  {
    assert (tokens + [token])[..|tokens|] == tokens;
  }

  lemma LastIsNew(keys: seq<string>, key: string)
    requires NoRepeat(keys + [key])
    ensures NoRepeat(keys) && Entered(keys, key) == keys + [key]
  {
    var more := keys + [key];
    assert forall i | 0 <= i < |keys| :: more[i] == keys[i] && more[i] != more[|keys|];
  }

  lemma {:induction false} OrderOfFields(fields: seq<Field>)
    requires forall i | 0 <= i < |fields| :: CleanField(fields[i])
    requires NoRepeat(FieldKeys(fields))
    ensures OrderOf(FieldTexts(fields)) == FieldKeys(fields)
  {
    if fields != [] {
      var earlier, last := fields[..|fields| - 1], fields[|fields| - 1];
      LastIsNew(FieldKeys(earlier), last.key);
      OrderOfFields(earlier);
      PairOfField(last);
      OrderOfMore(FieldTexts(earlier), FieldText(last));
    }
  }

  /** A payload whose keys are distinct reads back in the order it was printed in. */
  lemma PayloadKeepsOrder(fields: seq<Field>)
    requires forall i | 0 <= i < |fields| :: CleanField(fields[i])
    requires NoRepeat(FieldKeys(fields))
    ensures OrderOf(Tokens(Join(" ", FieldTexts(fields)))) == FieldKeys(fields)
  {
    PayloadTokens(fields);
    OrderOfFields(fields);
  }
  // ----- tokens one by one

  /** A value loses its quotes when it has one at each end, and only then. */
  ghost predicate IsQuoted(value: string) {
    exists inner: string :: value == "\"" + inner + "\""
  }

  lemma QuotedInner(inner: string)
    ensures Unquoted("\"" + inner + "\"") == inner
  {
  }

  lemma NotQuoted(value: string)
    requires !IsQuoted(value)
    ensures Unquoted(value) == value
  {
    if |value| >= 2 && value[0] == '\"' && value[|value| - 1] == '\"' {
      assert value == "\"" + value[1..|value| - 1] + "\"";
    }
  }

  /** What any token says: its name and the text after the equals sign, or nothing. */
  lemma TokenSays(key: string, value: string, inner: string)
    requires '=' !in key && key != ""
    ensures !IsQuoted(value) ==> PairOf(key + "=" + value) == Some((key, value))
    ensures PairOf(key + "=" + ("\"" + inner + "\"")) == Some((key, inner))
  {
    PartitionAt(key, '=', value);
    if !IsQuoted(value) {
      NotQuoted(value);
    }
    PartitionAt(key, '=', "\"" + inner + "\"");
    QuotedInner(inner);
  }

  lemma TokenSaysNothing(token: string)
    ensures PairOf(token).None? <==> '=' !in token || "=" <= token
  {
    var parts := Partition(token, '=');
    if parts.found && "=" <= token {
      PartitionAt("", '=', token[1..]);
      assert token == "" + "=" + token[1..];
    }
  }

  lemma PairsOfNext(tokens: seq<string>, token: string)
    ensures PairOf(token).None? ==>
      PairsOf(tokens + [token]) == PairsOf(tokens) && OrderOf(tokens + [token]) == OrderOf(tokens)
    ensures PairOf(token).Some? ==>
      && PairsOf(tokens + [token]) == PairsOf(tokens)[PairOf(token).value.0 := PairOf(token).value.1]
      && OrderOf(tokens + [token]) == Entered(OrderOf(tokens), PairOf(token).value.0)
  {
    assert (tokens + [token])[..|tokens|] == tokens;
  }

  lemma {:induction false} PairsOfStray(a: seq<string>, stray: string, b: seq<string>)
    requires PairOf(stray).None?
    ensures PairsOf(a + ([stray] + b)) == PairsOf(a + b) && OrderOf(a + ([stray] + b)) == OrderOf(a + b)
  {
    if b == [] {
      assert a + ([stray] + b) == a + [stray] && a + b == a;
      PairsOfNext(a, stray);
    } else {
      var n := |b| - 1;
      OneLonger(a, stray, b);
      PairsOfStray(a, stray, b[..n]);
      PairsOfNext(a + ([stray] + b[..n]), b[n]);
      PairsOfNext(a + b[..n], b[n]);
    }
  }

  /** A word of a payload that is no key=value pair adds nothing to it. */
  lemma StrayWordSaysNothing(before: seq<string>, stray: string, after: seq<string>)
    requires AreTokens(before + ([stray] + after)) && AreTokens(before + after)
    requires '=' !in stray || "=" <= stray
    ensures var with, without := Join(" ", before + ([stray] + after)), Join(" ", before + after);
      Params(with) == Params(without) && OrderOf(Tokens(with)) == OrderOf(Tokens(without))
  {
    TokensOfJoin(before + ([stray] + after));
    TokensOfJoin(before + after);
    TokenSaysNothing(stray);
    PairsOfStray(before, stray, after);
  }
}
