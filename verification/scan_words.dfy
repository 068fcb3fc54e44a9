/** The parser in the words of a scan: which protocols and which names it knows, each written out, and what a
    flags column that holds them is read as. */
module ScanWords {
  import opened Security
  import opened SecurityLaws
  import opened Text
  import opened Wrappers

  // ----- the words

  predicate IsProtocolName(p: string) {
    p == "WPA2" || p == "WPA" || p == "RSN" || p == "OSEN"
  }

  predicate IsSuiteB(n: string) {
    n == "EAP-SUITE-B-192" || n == "EAP-SUITE-B"
  }

  predicate IsExtKey(n: string) {
    n == "FT/SAE-EXT-KEY" || n == "SAE-EXT-KEY"
  }

  predicate IsFils(n: string) {
    n == "FT/FILS-SHA256" || n == "FT/FILS-SHA384" || n == "FILS-SHA256" || n == "FILS-SHA384"
  }

  predicate IsHashed(n: string) {
    n == "EAP-SHA256" || n == "PSK-SHA256" || n == "EAP-SHA384"
  }

  predicate IsFast(n: string) {
    n == "FT/EAP" || n == "FT/PSK" || n == "FT/SAE"
  }

  predicate IsPlain(n: string) {
    n == "None" || n == "EAP" || n == "PSK" || n == "SAE" || n == "OWE" || n == "DPP" || n == "?"
  }

  predicate IsScanName(n: string) {
    IsSuiteB(n) || IsExtKey(n) || IsFils(n) || IsHashed(n) || IsFast(n) || IsPlain(n)
  }

  predicate Either(names: seq<string>, n: string, i: nat, j: nat)
    requires i < |names| && j < |names|
  {
    n == names[i] || n == names[j]
  }

  lemma SuiteBAndExtKey(n: string)
    ensures IsSuiteB(n) <==> Either(SCAN_KEY_MGMT, n, 0, 4)
    ensures IsExtKey(n) <==> Either(SCAN_KEY_MGMT, n, 1, 5)
  {
  }

  lemma Fils(n: string)
    ensures IsFils(n) <==> Either(SCAN_KEY_MGMT, n, 2, 3) || Either(SCAN_KEY_MGMT, n, 6, 7)
  {
  }

  lemma HashedAndFast(n: string)
    ensures IsHashed(n) <==> Either(SCAN_KEY_MGMT, n, 8, 9) || Either(SCAN_KEY_MGMT, n, 10, 10)
    ensures IsFast(n) <==> Either(SCAN_KEY_MGMT, n, 11, 12) || Either(SCAN_KEY_MGMT, n, 13, 13)
  {
  }

  lemma Plain(n: string)
    ensures IsPlain(n)
       <==> Either(SCAN_KEY_MGMT, n, 14, 15) || Either(SCAN_KEY_MGMT, n, 16, 17)
            || Either(SCAN_KEY_MGMT, n, 18, 19) || Either(SCAN_KEY_MGMT, n, 20, 20)
  {
  }

  lemma InTwentyOne(names: seq<string>, n: string)
    requires |names| == 21
    ensures n in names
       <==> Either(names, n, 0, 4) || Either(names, n, 1, 5) || Either(names, n, 2, 3) || Either(names, n, 6, 7)
            || Either(names, n, 8, 9) || Either(names, n, 10, 10) || Either(names, n, 11, 12)
            || Either(names, n, 13, 13) || Either(names, n, 14, 15) || Either(names, n, 16, 17)
            || Either(names, n, 18, 19) || Either(names, n, 20, 20)
  {
  }

  /** The vocabulary holds the twenty-one names and no other. */
  lemma NamesAre(n: string)
    ensures |SCAN_KEY_MGMT| == 21 && (n in SCAN_KEY_MGMT <==> IsScanName(n))
  {
    InTwentyOne(SCAN_KEY_MGMT, n);
    SuiteBAndExtKey(n);
    Fils(n);
    HashedAndFast(n);
    Plain(n);
  }

  lemma ProtocolsAre(p: string)
    ensures p in PROTOCOLS <==> IsProtocolName(p)
  {
    var names := PROTOCOLS;
    assert names[0] in names && names[1] in names && names[2] in names && names[3] in names;
  }

  // ----- the protocols

  lemma {:induction false} FirstProtocolExactly(protocols: seq<string>, group: string, p: string)
    requires forall i | 0 <= i < |protocols| :: '-' !in protocols[i]
    ensures FirstProtocol(protocols, group) == Some(p) <==> p in protocols && p + "-" <= group
  {
    if p in protocols && p + "-" <= group {
      var rest := group[|p| + 1..];
      assert group == p + "-" + rest;
      FirstProtocolIs(protocols, p, rest);
    }
  }

  /** A protocol is reported exactly when it is one of the four and some group begins with it and a dash. */
  lemma ProtocolIsReported(flags: string, p: string)
    ensures p in SecurityOf(flags).protocols
       <==> IsProtocolName(p) && exists group :: InFlags(group, flags) && p + "-" <= group
  {
    ProtocolsAre(p);
    ProtocolsHoldNoDash();
    ParseSaysWhatGroupsSay(SCAN, flags, Protocol, p);
    assert p in Names(SecurityOf(flags), Protocol) <==> p in SecurityOf(flags).protocols;
    forall group ensures Says(SCAN, group, Protocol, p) <==> IsProtocolName(p) && p + "-" <= group {
      FirstProtocolExactly(PROTOCOLS, group, p);
    }
  }

  /** The group begins with one of the four protocols and a dash. */
  ghost predicate NamesProtocol(group: string) {
    exists p :: IsProtocolName(p) && p + "-" <= group
  }

  lemma NamesProtocolIs(group: string)
    ensures ProtocolOf(SCAN, group).Some? <==> NamesProtocol(group)
  {
    ProtocolsHoldNoDash();
    var p := ProtocolOf(SCAN, group);
    if p.Some? {
      ProtocolsAre(p.value);
    }
    if q :| IsProtocolName(q) && q + "-" <= group {
      ProtocolsAre(q);
      FirstProtocolExactly(PROTOCOLS, group, q);
    }
  }

  /** A group is kept verbatim exactly when it is not empty and begins with none of them. */
  lemma FlagIsReported(flags: string, flag: string)
    ensures flag in SecurityOf(flags).flags <==> flag != "" && InFlags(flag, flags) && !NamesProtocol(flag)
  {
    ParseSaysWhatGroupsSay(SCAN, flags, Flag, flag);
    assert flag in Names(SecurityOf(flags), Flag) <==> flag in SecurityOf(flags).flags;
    NamesProtocolIs(flag);
  }

  /** A network is open exactly when no group names a protocol and none is WEP. */
  lemma OpenExactlyWhen(flags: string)
    ensures SecurityOf(flags).Open() <==>
            !exists group :: InFlags(group, flags) && (NamesProtocol(group) || group == "WEP")
  {
    OpenSafety(SCAN, flags);
    forall group ensures Secured(SCAN, group) <==> NamesProtocol(group) || group == "WEP" {
      NamesProtocolIs(group);
    }
  }

  /** A group of one of the four protocols, whatever else it says and whatever stands on either side of it, is
      reported under that protocol, and the network is not open. */
  lemma ProtocolIsNeverLost(a: string, p: string, rest: string, b: string)
    requires Closed(a) && IsProtocolName(p) && ']' !in rest
    ensures var s := SecurityOf(a + "[" + p + "-" + rest + "]" + b);
      p in s.protocols && !s.Open()
  {
    var group := p + "-" + rest;
    var flags := a + "[" + p + "-" + rest + "]" + b;
    assert flags == a + ("[" + group + "]" + b);
    GroupAmid(SCAN, a, group, b);
    ProtocolOfGroup(p, rest);
  }

  lemma GroupAmid(v: Vocabulary, a: string, group: string, b: string)
    requires Closed(a) && ']' !in group
    ensures Parsed(v, a + ("[" + group + "]" + b))
         == Union(Parsed(v, a), Union(GroupSecurity(v, group), Parsed(v, b)))
  {
    ParseIsHomomorphic(v, a, "[" + group + "]" + b);
    ParseIsHomomorphic(v, "[" + group + "]", b);
    OneGroup(v, group);
  }

  /** Any other group is kept as it is; brackets with nothing in them add nothing. */
  lemma OtherGroupReadsBack(a: string, group: string, b: string)
    requires Closed(a) && ']' !in group && !NamesProtocol(group)
    ensures SecurityOf(a + ("[" + group + "]" + b))
         == Union(SecurityOf(a), Union(Security({}, {}, if group == "" then {} else {group}), SecurityOf(b)))
  {
    GroupAmid(SCAN, a, group, b);
    NamesProtocolIs(group);
  }

  // ----- the names

  predicate AllScanNames(names: seq<string>) {
    forall i | 0 <= i < |names| :: IsScanName(names[i])
  }

  /** A printed network: one of the four protocols, some of the twenty-one names joined by plus signs, and
      ciphers that cannot be taken for more of a name. Amid any flags it adds exactly itself. */
  lemma NetworkReadsBack(a: string, p: string, names: seq<string>, ciphers: string, b: string)
    requires Closed(a) && IsProtocolName(p) && names != [] && ClearCiphers(ciphers) && ']' !in ciphers
    requires AllScanNames(names)
    ensures SecurityOf(a + ("[" + (p + "-" + (Join("+", names) + ciphers)) + "]" + b))
         == Union(SecurityOf(a), Union(Security(Elements(names), {p}, {}), SecurityOf(b)))
  {
    var body := Join("+", names) + ciphers;
    NamesScan(names, ciphers);
    ProtocolOfGroup(p, body);
    NetworkAmid(SCAN, a, p, names, body, b);
  }

  lemma NamesScan(names: seq<string>, ciphers: string)
    requires names != [] && ClearCiphers(ciphers) && ']' !in ciphers
    requires AllScanNames(names)
    ensures NamesOf(SCAN_KEY_MGMT, Join("+", names) + ciphers) == names
    ensures ']' !in Join("+", names) + ciphers
  {
    forall i | 0 <= i < |names| ensures names[i] in SCAN_KEY_MGMT {
      NamesAre(names[i]);
    }
    ScanReadsBack(names, ciphers);
    forall i | 0 <= i < |names| ensures ']' !in names[i] {
      NameHoldsNoBracket(names[i]);
    }
    JoinHoldsNoBracket(names);
  }

  lemma ProtocolOfGroup(p: string, body: string)
    requires IsProtocolName(p) && ']' !in body
    ensures ProtocolOf(SCAN, p + "-" + body) == Some(p) && ']' !in p + "-" + body
  {
    ProtocolsAre(p);
    ProtocolsHoldNoDash();
    FirstProtocolIs(PROTOCOLS, p, body);
  }

  lemma NetworkAmid(v: Vocabulary, a: string, p: string, names: seq<string>, body: string, b: string)
    requires Closed(a) && ProtocolOf(v, p + "-" + body) == Some(p) && NamesOf(v.keyMgmt, body) == names
    requires ']' !in p + "-" + body
    ensures Parsed(v, a + ("[" + (p + "-" + body) + "]" + b))
         == Union(Parsed(v, a), Union(Security(Elements(names), {p}, {}), Parsed(v, b)))
  {
    assert (p + "-" + body)[|p| + 1..] == body;
    GroupAmid(v, a, p + "-" + body, b);
  }

  lemma NameHoldsNoBracket(n: string)
    requires IsScanName(n)
    ensures ']' !in n
  {
  }

  lemma {:induction false} JoinHoldsNoBracket(names: seq<string>)
    requires forall i | 0 <= i < |names| :: ']' !in names[i]
    ensures ']' !in Join("+", names)
  {
    if |names| > 1 {
      JoinHoldsNoBracket(names[1..]);
    }
  }

  /** The personal predicates, name by name, and what both together mean. */
  lemma PersonalNetwork(flags: string)
    ensures var s := SecurityOf(flags);
      var psk := "PSK" in s.keyMgmt || "FT/PSK" in s.keyMgmt || "PSK-SHA256" in s.keyMgmt;
      var sae := "SAE" in s.keyMgmt || "FT/SAE" in s.keyMgmt || "SAE-EXT-KEY" in s.keyMgmt;
      (s.Psk() <==> psk) && (s.Sae() <==> sae) && (s.TransitionMode() <==> psk && sae)
  {
    PersonalOffers(flags);
  }

  /** No flags column at all, or an empty one, says nothing: the network is open. */
  lemma NoFlags(flags: string)
    ensures GivenFlags(Some(flags)) == flags
    ensures SecurityOf(GivenFlags(None)) == SecurityOf("") == Security({}, {}, {})
    ensures SecurityOf("").Open() && !SecurityOf("").Psk() && !SecurityOf("").Sae()
  {
    EmptyPiece(SCAN);
  }

  // ----- brackets

  lemma OnePiece(v: Vocabulary, piece: string)
    requires ']' !in piece
    ensures Parsed(v, piece) == GroupSecurity(v, GroupOf(piece))
  {
    IndexOfNone(piece, ']');
    assert piece[..|piece|] == piece;
    assert Split(piece, ']') == [piece];
    assert [piece][..0] == [];
    assert SecurityOfPieces(v, [piece]) == Union(NOTHING, GroupSecurity(v, GroupOf(piece)));
    UnionAssociates(GroupSecurity(v, GroupOf(piece)), NOTHING, NOTHING);
  }

  /** Text outside the brackets says nothing, and a last bracket need not be closed. */
  lemma OutsideSaysNothing(a: string, outside: string, group: string)
    requires Closed(a) && '[' !in outside && ']' !in outside && ']' !in group
    ensures SecurityOf(a + outside) == SecurityOf(a)
    ensures SecurityOf(a + (outside + "[" + group)) == SecurityOf(a + ("[" + group + "]"))
    ensures SecurityOf(a + (outside + "[" + group + "]")) == SecurityOf(a + ("[" + group + "]"))
  {
    ParseIsHomomorphic(SCAN, a, outside);
    OnePiece(SCAN, outside);
    IndexOfNone(outside, '[');
    UnionAssociates(SecurityOf(a), NOTHING, NOTHING);
    PartitionAt(outside, '[', group);
    ParseIsHomomorphic(SCAN, a, outside + "[" + group);
    OnePiece(SCAN, outside + "[" + group);
    ParseIsHomomorphic(SCAN, a, "[" + group + "]");
    OneGroup(SCAN, group);
    OutsideClosed(a, outside, group);
  }

  lemma OutsideClosed(a: string, outside: string, group: string)
    requires Closed(a) && '[' !in outside && ']' !in outside && ']' !in group
    ensures SecurityOf(a + (outside + "[" + group + "]")) == Union(SecurityOf(a), GroupSecurity(SCAN, group))
  {
    var piece := outside + "[" + group;
    ParseIsHomomorphic(SCAN, a, piece + "]");
    ClosedPart(SCAN, piece);
    OnePiece(SCAN, piece);
    PartitionAt(outside, '[', group);
  }
}
