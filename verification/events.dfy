/** wpa_ctrl/events.py: unsolicited messages and the key=value payloads they carry. */
module Events {
  import opened Octets
  import opened Printf
  import opened Text
  import opened Wrappers

  const MSG_INFO := 3

  datatype Event = Event(priority: int, name: string, params: string, raw: string)

  // ----- one event message

  predicate IsEvent(message: string) {
    message != "" && message[0] == '<'
  }

  /** The priority a message carries, if it carries one, and the text after it. */
  function Prefixed(message: string): (p: (int, string))
    ensures !IsEvent(message) ==> p == (MSG_INFO, message)
  {
    if !IsEvent(message) then (MSG_INFO, message)
    else
      var p := Partition(message[1..], '>');
      match if p.found then ParseInt(p.head) else None
      case Some(priority) => (priority, p.tail)
      case None => (MSG_INFO, message)
  }

  function EventOf(message: string): Event {
    var (priority, body) := Prefixed(message);
    var parts := Partition(RStrip(body, '\n'), ' ');
    Event(priority, parts.head, parts.tail, message)
  }

  lemma PrefixEnd(message: string, end: nat)
    requires IsEvent(message) && end == IndexOf(message, '>')
    ensures end < |message| ==> Partition(message[1..], '>') == Parts(message[1..end], true, message[end + 1..])
    ensures end == |message| ==> !Partition(message[1..], '>').found
  {
    var rest := message[1..];
    assert end == 1 + IndexOf(rest, '>');
    if end < |message| {
      assert rest[..end - 1] == message[1..end] && rest[end..] == message[end + 1..];
    }
  }

  method ParseEvent(message: string) returns (event: Event)
    ensures event == EventOf(message)
  {
    var priority := MSG_INFO;
    var body := message;
    if IsEvent(message) {
      var end := IndexOf(message, '>');
      PrefixEnd(message, end);
      if end < |message| {
        match ParseInt(message[1..end]) {
          case Some(n) =>
            priority := n;
            body := message[end + 1..];
          case None =>
        }
      }
    }
    body := RStrip(body, '\n');
    var parts := Partition(body, ' ');
    event := Event(priority, parts.head, parts.tail, message);
  }

  // ----- printed messages

  /** What a message may be followed by: some line feeds. */
  function Feeds(n: nat): string {
    Repeated('\n', n)
  }

  predicate EndsInText(s: string) {
    s == "" || s[|s| - 1] != '\n'
  }

  lemma PrefixedIs(number: string, body: string)
    requires '>' !in number && ParseInt(number).Some?
    ensures var raw := "<" + number + ">" + body;
      IsEvent(raw) && Prefixed(raw) == (ParseInt(number).value, body)
  {
    var raw := "<" + number + ">" + body;
    assert raw[1..] == number + ">" + body;
    PartitionAt(number, '>', body);
  }

  lemma PrefixReads(number: string, text: string, n: nat)
    requires '>' !in number && ParseInt(number).Some? && EndsInText(text)
    ensures var raw, parts := "<" + number + ">" + text + Feeds(n), Partition(text, ' ');
      IsEvent(raw) && EventOf(raw) == Event(ParseInt(number).value, parts.head, parts.tail, raw)
  {
    Associate("<" + number + ">", text, Feeds(n));
    PrefixedIs(number, text + Feeds(n));
    RStripRepeated(text, '\n', n);
  }

  lemma NameAndParams(name: string, params: string)
    requires ' ' !in name && EndsInText(params)
    ensures EndsInText(name + " " + params) && Partition(name + " " + params, ' ') == Parts(name, true, params)
    ensures Partition(name, ' ') == Parts(name, false, "")
  {
    PartitionAt(name, ' ', params);
  }

  lemma NumberIsPrefix(priority: int)
    ensures '>' !in IntText(priority) && ParseInt(IntText(priority)) == Some(priority)
  {
    ParseIntText(priority);
  }

  /** A printed event reads back as what was printed, without the line feeds at its end. */
  lemma ParseEventOf(priority: int, name: string, params: string, n: nat)
    requires ' ' !in name && EndsInText(params)
    ensures var raw := "<" + IntText(priority) + ">" + (name + " " + params) + Feeds(n);
      IsEvent(raw) && EventOf(raw) == Event(priority, name, params, raw)
  {
    NumberIsPrefix(priority);
    NameAndParams(name, params);
    PrefixReads(IntText(priority), name + " " + params, n);
  }

  /** So does one of a name alone: it has no parameters. */
  lemma ParseNameOnly(priority: int, name: string, n: nat)
    requires ' ' !in name && EndsInText(name)
    ensures var raw := "<" + IntText(priority) + ">" + name + Feeds(n);
      IsEvent(raw) && EventOf(raw) == Event(priority, name, "", raw)
  {
    NumberIsPrefix(priority);
    NameAndParams(name, "");
    PrefixReads(IntText(priority), name, n);
  }

  /** No number stands between a less-than sign at the front and the first greater-than sign. */
  ghost predicate Unprefixed(raw: string) {
    !("<" <= raw) || forall number: string, rest: string ::
      raw == "<" + number + ">" + rest && '>' !in number ==> ParseInt(number).None?
  }

  lemma UnprefixedIs(raw: string)
    requires Unprefixed(raw)
    ensures Prefixed(raw) == (3, raw)
  {
    if IsEvent(raw) {
      var p := Partition(raw[1..], '>');
      assert p.found ==> raw == "<" + p.head + ">" + p.tail;
    }
  }

  /** A message without a number at its front is kept whole, at the default priority. */
  lemma ParseUnprefixed(name: string, params: string, n: nat)
    requires ' ' !in name && EndsInText(params)
    ensures var raw := name + " " + params + Feeds(n);
      Unprefixed(raw) ==> EventOf(raw) == Event(3, name, params, raw)
  {
    var raw := name + " " + params + Feeds(n);
    NameAndParams(name, params);
    RStripRepeated(name + " " + params, '\n', n);
    if Unprefixed(raw) {
      UnprefixedIs(raw);
    }
  }

  lemma ParseUnprefixedName(name: string, n: nat)
    requires ' ' !in name && EndsInText(name)
    ensures var raw := name + Feeds(n);
      Unprefixed(raw) ==> EventOf(raw) == Event(3, name, "", raw)
  {
    var raw := name + Feeds(n);
    NameAndParams(name, "");
    RStripRepeated(name, '\n', n);
    if Unprefixed(raw) {
      UnprefixedIs(raw);
    }
  }

  /** A datagram is taken for an event by its first character alone. */
  lemma EventsBeginSo(datagram: string)
    ensures IsEvent(datagram) <==> "<" <= datagram
  {
  }

  // ----- splitting a payload

  /** Where a scan of a payload is: outside quotes, inside them, or after a backslash inside them. */
  datatype Mode = Plain | Quoted | Escaped

  function After(m: Mode, c: char): Mode {
    match m
    case Escaped => Quoted
    case Quoted => if c == '\\' then Escaped else if c == '\"' then Plain else Quoted
    case Plain => if c == '\"' then Quoted else Plain
  }

  function Run(m: Mode, s: string): Mode
    decreases |s|
  {
    if s == "" then m else Run(After(m, s[0]), s[1..])
  }

  predicate IsBreak(m: Mode, c: char) {
    m == Plain && c == ' '
  }

  /** The tokens of a payload, some of it being read already: current, ending in mode m. */
  function Scan(current: string, m: Mode, text: string): seq<string>
    decreases |text|
  {
    if text == "" then
      if current == "" then [] else [current]
    else if IsBreak(m, text[0]) then
      (if current == "" then [] else [current]) + Scan("", m, text[1..])
    else Scan(current + [text[0]], After(m, text[0]), text[1..])
  }

  function Tokens(text: string): seq<string> {
    Scan("", Plain, text)
  }

  method SplitParams(text: string) returns (tokens: seq<string>)
    ensures tokens == Tokens(text)
  {
    tokens := [];
    var current := "";
    var quoted, escaped := false, false;
    var i := 0;
    while i < |text|
      invariant i <= |text|
      invariant escaped ==> quoted
      invariant tokens + Scan(current, ModeOf(quoted, escaped), text[i..]) == Tokens(text)
    {
      var c := text[i];
      ghost var rest := text[i..];
      assert rest[0] == c && rest[1..] == text[i + 1..];
      if escaped {
        current := current + [c];
        escaped := false;
      } else if quoted && c == '\\' {
        current := current + [c];
        escaped := true;
      } else if c == '\"' {
        current := current + [c];
        quoted := !quoted;
      } else if c == ' ' && !quoted {
        if current != "" {
          tokens := tokens + [current];
          current := "";
        }
      } else {
        current := current + [c];
      }
      i := i + 1;
    }
    if current != "" {
      tokens := tokens + [current];
    }
  }

  function ModeOf(quoted: bool, escaped: bool): Mode {
    if escaped then Escaped else if quoted then Quoted else Plain
  }

  // ----- the pairs of a payload

  /** What a token contributes: nothing without an equals sign or without a name before it. */
  function PairOf(token: string): (p: Option<(string, string)>)
    ensures p.Some? ==> p.value.0 != "" && '=' !in p.value.0
  {
    var parts := Partition(token, '=');
    if !parts.found || parts.head == "" then None else Some((parts.head, Unquoted(parts.tail)))
  }

  function Unquoted(value: string): string {
    if |value| >= 2 && value[0] == '\"' && value[|value| - 1] == '\"' then value[1..|value| - 1] else value
  }

  function PairsOf(tokens: seq<string>): map<string, string> {
    if tokens == [] then map[]
    else
      var earlier := PairsOf(tokens[..|tokens| - 1]);
      match PairOf(tokens[|tokens| - 1])
      case None => earlier
      case Some((key, value)) => earlier[key := value]
  }

  /** The keys in the order the dictionary keeps them. */
  function OrderOf(tokens: seq<string>): seq<string> {
    if tokens == [] then []
    else
      var earlier := OrderOf(tokens[..|tokens| - 1]);
      match PairOf(tokens[|tokens| - 1])
      case None => earlier
      case Some((key, _)) => Entered(earlier, key)
  }

  function Params(params: string): map<string, string> {
    PairsOf(Tokens(params))
  }

  /** The loop's invariant: what the first i tokens contribute. */
  ghost predicate PairsTo(tokens: seq<string>, i: nat, variables: map<string, string>, order: seq<string>) {
    i <= |tokens| && variables == PairsOf(tokens[..i]) && order == OrderOf(tokens[..i])
  }

  lemma PairSkipped(tokens: seq<string>, i: nat, variables: map<string, string>, order: seq<string>)
    requires i < |tokens| && PairsTo(tokens, i, variables, order) && PairOf(tokens[i]).None?
    ensures PairsTo(tokens, i + 1, variables, order)
  {
    OneMore(tokens, i);
  }

  lemma PairTaken(tokens: seq<string>, i: nat, variables: map<string, string>, order: seq<string>,
                  key: string, value: string)
    requires i < |tokens| && PairsTo(tokens, i, variables, order) && PairOf(tokens[i]) == Some((key, value))
    ensures PairsTo(tokens, i + 1, variables[key := value], Entered(order, key))
  {
    OneMore(tokens, i);
  }

  method ParseParams(params: string) returns (variables: map<string, string>, order: seq<string>)
    ensures variables == Params(params) && order == OrderOf(Tokens(params))
  {
    variables, order := map[], [];
    var tokens := SplitParams(params);
    for i := 0 to |tokens|
      invariant PairsTo(tokens, i, variables, order)
    {
      var token := tokens[i];
      var parts := Partition(token, '=');
      if !parts.found || parts.head == "" {
        PairSkipped(tokens, i, variables, order);
        continue;
      }
      var value := parts.tail;
      if |value| >= 2 && value[0] == '\"' && value[|value| - 1] == '\"' {
        value := value[1..|value| - 1];
      }
      PairTaken(tokens, i, variables, order, parts.head, value);
      variables, order := variables[parts.head := value], Entered(order, parts.head);
    }
    assert tokens[..|tokens|] == tokens;
  }

  // ----- the typed view of one event

  const SSID_TEMP_DISABLED := "CTRL-EVENT-SSID-TEMP-DISABLED"

  /** SsidTempDisabled.from_event(event).ssid_bytes */
  function TempDisabledSsid(event: Event): Result<Option<seq<Octet>>> {
    if event.name != SSID_TEMP_DISABLED then Err(ValueError)
    else
      var variables := Params(event.params);
      Ok(if "ssid" in variables then Some(Decoded(variables["ssid"])) else None)
  }
  /** Of this one event, by its name, the view is given, and of no other. */
  lemma TempDisabledOnly(event: Event)
    ensures TempDisabledSsid(event).Ok? <==> event.name == "CTRL-EVENT-SSID-TEMP-DISABLED"
    ensures TempDisabledSsid(event).Err? ==> TempDisabledSsid(event).error == ValueError
  {
  }
}
