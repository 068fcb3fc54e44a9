/** wpa_ctrl/security.py: what an access point offers, read from the flags of a scan result. */
module Security {
  import opened Text
  import opened Wrappers

  // ----- the vocabulary

  /** Key management names as a scan result spells them, the longest first. */
  const SCAN_KEY_MGMT: seq<string> := [
    "EAP-SUITE-B-192",
    "FT/SAE-EXT-KEY", "FT/FILS-SHA256", "FT/FILS-SHA384",
    "EAP-SUITE-B", "SAE-EXT-KEY", "FILS-SHA256", "FILS-SHA384",
    "EAP-SHA256", "PSK-SHA256", "EAP-SHA384",
    "FT/EAP", "FT/PSK", "FT/SAE",
    "None",
    "EAP", "PSK", "SAE", "OWE", "DPP",
    "?"
  ]

  const PROTOCOLS: seq<string> := ["WPA2", "WPA", "RSN", "OSEN"]

  /** The words a flags column is read by. */
  datatype Vocabulary = Vocabulary(keyMgmt: seq<string>, protocols: seq<string>)

  const SCAN := Vocabulary(SCAN_KEY_MGMT, PROTOCOLS)

  // ----- the names at the front of a group's body

  /** A name counts only when the body ends or a separator comes right after it. */
  predicate Fits(name: string, body: string) {
    name <= body && (|name| == |body| || body[|name|] == '+' || body[|name|] == '-')
  }

  /** The first of the names that fits. */
  function FirstFit(names: seq<string>, body: string): (r: Option<string>)
    ensures r.None? <==> forall i | 0 <= i < |names| :: !Fits(names[i], body)
    ensures r.Some? ==> Fits(r.value, body) && r.value in names
  {
    if names == [] then None
    else if Fits(names[0], body) then Some(names[0])
    else FirstFit(names[1..], body)
  }

  /** The names run, joined by plus signs, until something that is not one. */
  function NamesOf(vocabulary: seq<string>, body: string): seq<string>
    decreases |body|
  {
    match FirstFit(vocabulary, body)
    case None => []
    case Some(name) =>
      if |name| < |body| && body[|name|] == '+' then [name] + NamesOf(vocabulary, body[|name| + 1..])
      else [name]
  }

  ghost predicate ScannedTo(vocabulary: seq<string>, body: string, index: nat, names: seq<string>) {
    index <= |body| && names + NamesOf(vocabulary, body[index..]) == NamesOf(vocabulary, body)
  }

  lemma ScanStep(vocabulary: seq<string>, body: string, index: nat, names: seq<string>, name: string)
    requires ScannedTo(vocabulary, body, index, names) && FirstFit(vocabulary, body[index..]) == Some(name)
    ensures index + |name| <= |body|
    ensures if index + |name| < |body| && body[index + |name|] == '+'
      then ScannedTo(vocabulary, body, index + |name| + 1, names + [name])
      else names + [name] == NamesOf(vocabulary, body)
  {
    var rest := body[index..];
    if |name| < |rest| && rest[|name|] == '+' {
      assert rest[|name| + 1..] == body[index + |name| + 1..];
      Associate(names, [name], NamesOf(vocabulary, rest[|name| + 1..]));
    }
  }

  lemma ScanEnds(vocabulary: seq<string>, body: string, index: nat, names: seq<string>)
    requires ScannedTo(vocabulary, body, index, names) && FirstFit(vocabulary, body[index..]).None?
    ensures names == NamesOf(vocabulary, body)
  {
    assert names + [] == names;
  }

  lemma {:induction false} NothingFits(vocabulary: seq<string>)
    requires forall i | 0 <= i < |vocabulary| :: vocabulary[i] != ""
    ensures FirstFit(vocabulary, "") == None
  {
  }

  method ScanKeyMgmt(vocabulary: seq<string>, body: string) returns (names: seq<string>)
    requires forall i | 0 <= i < |vocabulary| :: vocabulary[i] != ""
    ensures names == NamesOf(vocabulary, body)
  {
    names := [];
    var index := 0;
    while index < |body|
      invariant ScannedTo(vocabulary, body, index, names)
      decreases |body| - index
    {
      var name := FirstName(vocabulary, body, index);
      match name {
        case None =>
          ScanEnds(vocabulary, body, index, names);
          return;
        case Some(n) =>
          ScanStep(vocabulary, body, index, names, n);
          names := names + [n];
          index := index + |n|;
      }
      if index < |body| && body[index] == '+' {
        index := index + 1;
        continue;
      }
      return;
    }
    assert body[index..] == "";
    NothingFits(vocabulary);
    ScanEnds(vocabulary, body, index, names);
  }

  /** The inner loop over the vocabulary. */
  method FirstName(vocabulary: seq<string>, body: string, index: nat) returns (name: Option<string>)
    requires index <= |body|
    ensures name == FirstFit(vocabulary, body[index..])
  {
    var rest := body[index..];
    for k := 0 to |vocabulary|
      invariant FirstFit(vocabulary[k..], rest) == FirstFit(vocabulary, rest)
    {
      var candidate := vocabulary[k];
      var end := index + |candidate|;
      assert vocabulary[k..][1..] == vocabulary[k + 1..];
      FitsAt(candidate, body, index);
      if end <= |body| && body[index..end] == candidate
         && (end == |body| || body[end] == '+' || body[end] == '-') {
        return Some(candidate);
      }
    }
    return None;
  }

  lemma FitsAt(name: string, body: string, index: nat)
    requires index <= |body|
    ensures var end := index + |name|;
      Fits(name, body[index..]) <==>
        end <= |body| && body[index..end] == name && (end == |body| || body[end] == '+' || body[end] == '-')
  {
    var rest, end := body[index..], index + |name|;
    if end <= |body| {
      assert body[index..end] == rest[..|name|];
    }
  }

  // ----- the flags column

  datatype Security = Security(keyMgmt: set<string>, protocols: set<string>, flags: set<string>) {
    predicate Wep() {
      "WEP" in flags
    }

    predicate Open() {
      keyMgmt == {} && protocols == {} && !Wep()
    }

    predicate Psk() {
      exists name | name in keyMgmt :: OffersPsk(name)
    }

    predicate Sae() {
      exists name | name in keyMgmt :: OffersSae(name)
    }

    predicate TransitionMode() {
      Psk() && Sae()
    }
  }

  predicate OffersPsk(name: string) {
    name == "PSK" || EndsWith(name, "/PSK") || "PSK-" <= name
  }

  predicate OffersSae(name: string) {
    name == "SAE" || EndsWith(name, "/SAE") || "SAE-" <= name
  }

  predicate EndsWith(s: string, suffix: string) {
    |suffix| <= |s| && forall i | 0 <= i < |suffix| :: s[|s| - |suffix| + i] == suffix[i]
  }

  const NOTHING := Security({}, {}, {})

  function Union(a: Security, b: Security): Security {
    Security(a.keyMgmt + b.keyMgmt, a.protocols + b.protocols, a.flags + b.flags)
  }

  /** The first of the protocols that the group begins with, a dash after it. */
  function FirstProtocol(protocols: seq<string>, group: string): (p: Option<string>)
    ensures p.Some? ==> p.value in protocols && p.value + "-" <= group
    ensures p.None? ==> forall i | 0 <= i < |protocols| :: !(protocols[i] + "-" <= group)
  {
    if protocols == [] then None
    else if protocols[0] + "-" <= group then Some(protocols[0])
    else FirstProtocol(protocols[1..], group)
  }

  function ProtocolOf(v: Vocabulary, group: string): (p: Option<string>)
    ensures p.Some? ==> p.value + "-" <= group
  {
    FirstProtocol(v.protocols, group)
  }

  function Elements(names: seq<string>): set<string> {
    set n | n in names
  }

  /** What one group contributes. */
  function GroupSecurity(v: Vocabulary, group: string): Security {
    if group == "" then NOTHING
    else
      match ProtocolOf(v, group)
      case Some(protocol) =>
        Security(Elements(NamesOf(v.keyMgmt, group[|protocol| + 1..])), {protocol}, {})
      case None => Security({}, {}, {group})
  }

  /** What follows the opening bracket of a piece, if it has one. */
  function GroupOf(piece: string): string {
    Partition(piece, '[').tail
  }

  function SecurityOfPieces(v: Vocabulary, pieces: seq<string>): Security {
    if pieces == [] then NOTHING
    else
      Union(SecurityOfPieces(v, pieces[..|pieces| - 1]), GroupSecurity(v, GroupOf(pieces[|pieces| - 1])))
  }

  function Parsed(v: Vocabulary, flags: string): Security {
    SecurityOfPieces(v, Split(flags, ']'))
  }

  function SecurityOf(flags: string): Security {
    Parsed(SCAN, flags)
  }

  /** flags or "": no flags at all are read as an empty column. */
  function GivenFlags(flags: Option<string>): string {
    if flags.Some? then flags.value else ""
  }

  lemma NoNameIsEmpty()
    ensures forall i | 0 <= i < |SCAN_KEY_MGMT| :: SCAN_KEY_MGMT[i] != ""
  {
  }

  lemma UnionParts(s: Security, names: set<string>, protocols: set<string>, flags: set<string>)
    ensures names == {} ==> s.keyMgmt + names == s.keyMgmt
    ensures protocols == {} ==> s.protocols + protocols == s.protocols
    ensures flags == {} ==> s.flags + flags == s.flags
    ensures Union(s, Security(names, protocols, flags))
         == Security(s.keyMgmt + names, s.protocols + protocols, s.flags + flags)
  {
  }

  lemma PiecesStep(v: Vocabulary, pieces: seq<string>, i: nat)
    requires i < |pieces|
    ensures SecurityOfPieces(v, pieces[..i + 1])
         == Union(SecurityOfPieces(v, pieces[..i]), GroupSecurity(v, GroupOf(pieces[i])))
  {
    assert pieces[..i + 1][..i] == pieces[..i];
  }

  method ParseSecurity(flags: Option<string>) returns (security: Security)
    ensures security == SecurityOf(GivenFlags(flags))
  {
    var keyMgmt: set<string> := {};
    var protocols: set<string> := {};
    var others: set<string> := {};
    var pieces := Split(GivenFlags(flags), ']');
    for i := 0 to |pieces|
      invariant Security(keyMgmt, protocols, others) == SecurityOfPieces(SCAN, pieces[..i])
    {
      PiecesStep(SCAN, pieces, i);
      ghost var before := Security(keyMgmt, protocols, others);
      var group := Partition(pieces[i], '[').tail;
      if group == "" {
        UnionParts(before, {}, {}, {});
        continue;
      }
      var protocol := FirstProtocol(PROTOCOLS, group);
      match protocol {
        case Some(p) =>
          protocols := protocols + {p};
          NoNameIsEmpty();
          var names := ScanKeyMgmt(SCAN_KEY_MGMT, group[|p| + 1..]);
          keyMgmt := keyMgmt + Elements(names);
          UnionParts(before, Elements(names), {p}, {});
        case None =>
          others := others + {group};
          UnionParts(before, {}, {}, {group});
      }
    }
    assert pieces[..|pieces|] == pieces;
    security := Security(keyMgmt, protocols, others);
  }
}
