/** What is true of the scanner and of the parser on top of it. */
module SecurityLaws {
  import opened Security
  import opened Text
  import opened Wrappers

  // ----- the vocabulary

  predicate LongestFirst(names: seq<string>) {
    forall i, j | 0 <= i < j < |names| :: |names[i]| >= |names[j]|
  }

  /** What the proofs need of a vocabulary. */
  predicate GoodVocabulary(names: seq<string>) {
    LongestFirst(names) && forall i | 0 <= i < |names| :: '+' !in names[i]
  }

  lemma ScanVocabularyFalls()
    ensures LongestFirst(SCAN_KEY_MGMT)
  {
  }

  lemma LongNamesHoldNoPlus()
    ensures forall i | 0 <= i < 8 :: '+' !in SCAN_KEY_MGMT[i]
  {
  }

  lemma ShortNamesHoldNoPlus()
    ensures forall i | 8 <= i < |SCAN_KEY_MGMT| :: '+' !in SCAN_KEY_MGMT[i]
  {
  }

  lemma ScanVocabularyIsGood()
    ensures GoodVocabulary(SCAN_KEY_MGMT)
  {
    ScanVocabularyFalls();
    LongNamesHoldNoPlus();
    ShortNamesHoldNoPlus();
  }

  // ----- maximal munch

  /** The first name that fits is the longest that does. */
  lemma {:induction false} FirstFitIsLongest(names: seq<string>, body: string, other: string)
    requires LongestFirst(names) && other in names && Fits(other, body)
    ensures FirstFit(names, body).Some? && |other| <= |FirstFit(names, body).value|
  {
    if Fits(names[0], body) {
      var i :| 0 <= i < |names| && names[i] == other;
    } else {
      FirstFitIsLongest(names[1..], body, other);
    }
  }

  lemma {:induction false} PlusOutside(name: string, body: string, k: nat)
    requires '+' !in name && name <= body && k < |body| && body[k] == '+'
    ensures |name| <= k
  {
    if name != "" && k > 0 {
      PlusOutside(name[1..], body[1..], k - 1);
    }
  }

  /** A name followed by a plus sign is read whatever longer names there are: none of them holds one. */
  lemma NameBeforePlus(names: seq<string>, name: string, rest: string)
    requires GoodVocabulary(names) && name in names
    ensures FirstFit(names, name + "+" + rest) == Some(name)
  {
    var body := name + "+" + rest;
    assert body[..|name|] == name && body[|name|] == '+';
    assert Fits(name, body);
    FirstFitIsLongest(names, body, name);
    var first := FirstFit(names, body).value;
    PlusOutside(first, body, |name|);
    assert first == body[..|first|];
  }

  /** No longer name of the vocabulary reaches from the last name into the ciphers. */
  ghost predicate NoneLonger(vocabulary: seq<string>, last: string, ciphers: string) {
    forall longer | longer in vocabulary && Fits(longer, last + ciphers) :: |longer| <= |last|
  }

  /** A list of names, joined by plus signs, then the ciphers, reads as that list if and only if no longer
      name of the vocabulary reaches from the last name into the ciphers. */
  lemma {:induction false} ScanIsExact(vocabulary: seq<string>, names: seq<string>, ciphers: string)
    requires GoodVocabulary(vocabulary) && names != []
    requires forall i | 0 <= i < |names| :: names[i] in vocabulary
    requires ciphers == "" || ciphers[0] == '-'
    ensures NamesOf(vocabulary, Join("+", names) + ciphers) == names
       <==> NoneLonger(vocabulary, names[|names| - 1], ciphers)
  {
    var first := names[0];
    if |names| == 1 {
      LastNameIsExact(vocabulary, first, ciphers);
      assert names == [first];
    } else {
      var others := names[1..];
      var rest := Join("+", others) + ciphers;
      assert names[|names| - 1] == others[|others| - 1];
      calc {
        NamesOf(vocabulary, Join("+", names) + ciphers) == names;
        { Associate(first + "+", Join("+", others), ciphers); }
        NamesOf(vocabulary, first + "+" + rest) == names;
        { NamesBeforePlus(vocabulary, first, rest); }
        [first] + NamesOf(vocabulary, rest) == names;
        { ConsEqual(first, NamesOf(vocabulary, rest), names); }
        NamesOf(vocabulary, rest) == others;
        { ScanIsExact(vocabulary, others, ciphers); }
        NoneLonger(vocabulary, others[|others| - 1], ciphers);
      }
    }
  }

  /** What may follow a dash inside a name of the vocabulary. */
  predicate GoesOn(c: char) {
    c == 'S' || c == 'E' || c == 'K' || c == 'B' || c == '1'
  }

  predicate DashesGoOn(name: string) {
    forall k | 0 <= k < |name| :: name[k] == '-' ==> k + 1 < |name| && GoesOn(name[k + 1])
  }

  lemma LongNamesDashes()
    ensures forall i | 0 <= i < 8 :: DashesGoOn(SCAN_KEY_MGMT[i])
  {
  }

  lemma ShortNamesDashes()
    ensures forall i | 8 <= i < |SCAN_KEY_MGMT| :: DashesGoOn(SCAN_KEY_MGMT[i])
  {
  }

  lemma ScanVocabularyDashes()
    ensures forall name | name in SCAN_KEY_MGMT :: DashesGoOn(name)
  {
    LongNamesDashes();
    ShortNamesDashes();
  }

  /** Ciphers that cannot be taken for the rest of a name: CCMP, TKIP, GCMP, NONE and the like. */
  predicate ClearCiphers(ciphers: string) {
    ciphers == "" || (ciphers[0] == '-' && (|ciphers| == 1 || !GoesOn(ciphers[1])))
  }

  /** A name that reaches past the last one into the ciphers goes on after their dash. */
  lemma LongerGoesOn(longer: string, last: string, ciphers: string)
    requires DashesGoOn(longer) && longer <= last + ciphers && |longer| > |last| && ciphers[0] == '-'
    ensures |ciphers| > 1 && GoesOn(ciphers[1])
  {
    var body := last + ciphers;
    assert longer[|last|] == body[|last|] == ciphers[0];
    assert longer[|last| + 1] == body[|last| + 1] == ciphers[1];
  }

  lemma ClearIsNoneLonger(last: string, ciphers: string)
    requires last in SCAN_KEY_MGMT && ClearCiphers(ciphers)
    ensures NoneLonger(SCAN_KEY_MGMT, last, ciphers)
  {
    ScanVocabularyDashes();
    forall longer | longer in SCAN_KEY_MGMT && Fits(longer, last + ciphers)
      ensures |longer| <= |last|
    {
      if |longer| > |last| {
        LongerGoesOn(longer, last, ciphers);
      }
    }
  }

  /** In the vocabulary of a scan, then, every list of names before such ciphers is read back as it is. */
  lemma ScanReadsBack(names: seq<string>, ciphers: string)
    requires names != [] && forall i | 0 <= i < |names| :: names[i] in SCAN_KEY_MGMT
    requires ClearCiphers(ciphers)
    ensures NamesOf(SCAN_KEY_MGMT, Join("+", names) + ciphers) == names
  {
    ScanVocabularyIsGood();
    ClearIsNoneLonger(names[|names| - 1], ciphers);
    ScanIsExact(SCAN_KEY_MGMT, names, ciphers);
  }

  lemma NamesBeforePlus(vocabulary: seq<string>, name: string, rest: string)
    requires GoodVocabulary(vocabulary) && name in vocabulary
    ensures NamesOf(vocabulary, name + "+" + rest) == [name] + NamesOf(vocabulary, rest)
  {
    NameBeforePlus(vocabulary, name, rest);
    assert (name + "+" + rest)[|name| + 1..] == rest;
  }

  lemma ConsEqual<T>(x: T, s: seq<T>, t: seq<T>)
    requires t != [] && t[0] == x
    ensures [x] + s == t <==> s == t[1..]
  {
    assert ([x] + s)[1..] == s;
    assert [x] + t[1..] == t;
  }

  lemma LastNameIsExact(vocabulary: seq<string>, last: string, ciphers: string)
    requires GoodVocabulary(vocabulary) && last in vocabulary
    requires ciphers == "" || ciphers[0] == '-'
    ensures NamesOf(vocabulary, last + ciphers) == [last] <==> NoneLonger(vocabulary, last, ciphers)
  {
    var body := last + ciphers;
    assert body[..|last|] == last;
    assert Fits(last, body);
    FirstFitIsLongest(vocabulary, body, last);
    var first := FirstFit(vocabulary, body).value;
    assert first == body[..|first|];
    if NoneLonger(vocabulary, last, ciphers) {
      assert |first| == |last| && first == last;
      assert NamesOf(vocabulary, body) == [last];
    } else {
      var longer :| longer in vocabulary && Fits(longer, body) && |longer| > |last|;
      FirstFitIsLongest(vocabulary, body, longer);
      assert NamesOf(vocabulary, body)[0] == first != last;
    }
  }

  /** The end of a reading: of the body itself, or at a separator. */
  predicate ReadsUpTo(read: string, body: string) {
    read <= body && (|read| == |body| || body[|read|] == '+' || body[|read|] == '-')
  }

  /** Whatever the body, the names found are known ones and joined they begin it. */
  lemma {:induction false} ScanIsSound(vocabulary: seq<string>, body: string)
    ensures var names := NamesOf(vocabulary, body);
      (forall i | 0 <= i < |names| :: names[i] in vocabulary)
      && Join("+", names) <= body
      && (names != [] ==> ReadsUpTo(Join("+", names), body))
    decreases |body|
  {
    match FirstFit(vocabulary, body) {
      case None =>
      case Some(name) =>
        assert body == name + body[|name|..];
        if |name| < |body| && body[|name|] == '+' {
          var rest := body[|name| + 1..];
          assert body == name + "+" + rest;
          ScanIsSound(vocabulary, rest);
          JoinOnto(name, NamesOf(vocabulary, rest), rest);
        }
    }
  }

  lemma JoinOnto(name: string, names: seq<string>, rest: string)
    requires Join("+", names) <= rest && (names != [] ==> ReadsUpTo(Join("+", names), rest))
    ensures ReadsUpTo(Join("+", [name] + names), name + "+" + rest)
  {
    assert ([name] + names)[1..] == names;
    if names != [] {
      var read := Join("+", names);
      assert rest == read + rest[|read|..];
      assert name + "+" + rest == name + "+" + read + rest[|read|..];
    }
  }

  /** No other reading of the body by names of the vocabulary reaches further. */
  lemma {:induction false} ScanIsMaximal(vocabulary: seq<string>, body: string, names: seq<string>)
    requires GoodVocabulary(vocabulary) && names != []
    requires forall i | 0 <= i < |names| :: names[i] in vocabulary
    requires ReadsUpTo(Join("+", names), body)
    ensures NamesOf(vocabulary, body) != []
    ensures |Join("+", names)| <= |Join("+", NamesOf(vocabulary, body))|
    decreases |body|
  {
    var first := names[0];
    FitsAtFront(names, body);
    FirstFitIsLongest(vocabulary, body, first);
    if |names| == 1 {
      AtLeastFirst(vocabulary, body);
    } else {
      var rest := RestOfReading(names, body);
      assert body == first + "+" + rest;
      NamesBeforePlus(vocabulary, first, rest);
      ScanIsMaximal(vocabulary, rest, names[1..]);
      JoinCons(first, names[1..]);
      JoinCons(first, NamesOf(vocabulary, rest));
      assert names == [first] + names[1..];
    }
  }

  lemma JoinCons(first: string, others: seq<string>)
    requires others != []
    ensures Join("+", [first] + others) == first + "+" + Join("+", others)
  {
    assert ([first] + others)[1..] == others;
  }

  lemma AtLeastFirst(vocabulary: seq<string>, body: string)
    requires FirstFit(vocabulary, body).Some?
    ensures NamesOf(vocabulary, body) != []
    ensures |Join("+", NamesOf(vocabulary, body))| >= |FirstFit(vocabulary, body).value|
  {
  }

  lemma RestOfReading(names: seq<string>, body: string) returns (rest: string)
    requires |names| > 1 && ReadsUpTo(Join("+", names), body)
    ensures body == names[0] + "+" + rest
    ensures ReadsUpTo(Join("+", names[1..]), rest)
  {
    var read, others := Join("+", names), Join("+", names[1..]);
    assert read == names[0] + "+" + others;
    rest := others + body[|read|..];
    assert body == read + body[|read|..];
    Associate(names[0] + "+", others, body[|read|..]);
  }

  lemma FitsAtFront(names: seq<string>, body: string)
    requires names != [] && ReadsUpTo(Join("+", names), body)
    ensures Fits(names[0], body)
  {
    var read := Join("+", names);
    assert body[..|read|] == read;
    if |names| > 1 {
      assert read == names[0] + "+" + Join("+", names[1..]);
      assert names[0] == read[..|names[0]|] == body[..|names[0]|];
    }
  }

  // ----- the flags column as a whole

  predicate HasGroup(pieces: seq<string>, group: string) {
    exists i | 0 <= i < |pieces| :: GroupOf(pieces[i]) == group
  }

  /** Whether a flags column has the group: text after the opening bracket of a piece. */
  predicate InFlags(group: string, flags: string) {
    HasGroup(Split(flags, ']'), group)
  }

  datatype Kind = KeyManagement | Protocol | Flag

  function Names(s: Security, kind: Kind): set<string> {
    match kind
    case KeyManagement => s.keyMgmt
    case Protocol => s.protocols
    case Flag => s.flags
  }

  /** What a group says under each of the three headings. */
  predicate Says(v: Vocabulary, group: string, kind: Kind, name: string) {
    group != "" &&
    match kind
    case KeyManagement =>
      ProtocolOf(v, group).Some? && name in NamesOf(v.keyMgmt, group[|ProtocolOf(v, group).value| + 1..])
    case Protocol => ProtocolOf(v, group) == Some(name)
    case Flag => ProtocolOf(v, group).None? && name == group
  }

  lemma GroupSays(v: Vocabulary, group: string, kind: Kind, name: string)
    ensures name in Names(GroupSecurity(v, group), kind) <==> Says(v, group, kind, name)
  {
  }

  lemma LastPieceSays(v: Vocabulary, pieces: seq<string>, kind: Kind, name: string)
    requires pieces != []
    ensures name in Names(SecurityOfPieces(v, pieces), kind)
       <==> name in Names(SecurityOfPieces(v, pieces[..|pieces| - 1]), kind)
            || Says(v, GroupOf(pieces[|pieces| - 1]), kind, name)
  {
    GroupSays(v, GroupOf(pieces[|pieces| - 1]), kind, name);
  }

  lemma {:induction false} PieceThatSays(v: Vocabulary, pieces: seq<string>, kind: Kind, name: string)
    returns (i: nat)
    requires name in Names(SecurityOfPieces(v, pieces), kind)
    ensures i < |pieces| && Says(v, GroupOf(pieces[i]), kind, name)
  {
    LastPieceSays(v, pieces, kind, name);
    i := |pieces| - 1;
    if !Says(v, GroupOf(pieces[i]), kind, name) {
      i := PieceThatSays(v, pieces[..i], kind, name);
    }
  }

  lemma {:induction false} PieceSays(v: Vocabulary, pieces: seq<string>, kind: Kind, name: string, i: nat)
    requires i < |pieces| && Says(v, GroupOf(pieces[i]), kind, name)
    ensures name in Names(SecurityOfPieces(v, pieces), kind)
    decreases |pieces|
  {
    LastPieceSays(v, pieces, kind, name);
    if i < |pieces| - 1 {
      PieceSays(v, pieces[..|pieces| - 1], kind, name, i);
    }
  }

  /** The three sets hold exactly what some group says: nothing is made up and nothing is lost. */
  lemma ParseSaysWhatGroupsSay(v: Vocabulary, flags: string, kind: Kind, name: string)
    ensures name in Names(Parsed(v, flags), kind)
       <==> exists group :: InFlags(group, flags) && Says(v, group, kind, name)
  {
    var pieces := Split(flags, ']');
    if name in Names(Parsed(v, flags), kind) {
      var i := PieceThatSays(v, pieces, kind, name);
      assert InFlags(GroupOf(pieces[i]), flags);
    }
    if group :| InFlags(group, flags) && Says(v, group, kind, name) {
      var i :| 0 <= i < |pieces| && GroupOf(pieces[i]) == group;
      PieceSays(v, pieces, kind, name, i);
    }
  }

  /** Every group that is not empty is accounted for: by its protocol, or verbatim. */
  lemma EveryGroupCounts(v: Vocabulary, flags: string, group: string)
    requires InFlags(group, flags) && group != ""
    ensures match ProtocolOf(v, group)
      case Some(protocol) => protocol in Parsed(v, flags).protocols
      case None => group in Parsed(v, flags).flags
  {
    match ProtocolOf(v, group) {
      case Some(protocol) =>
        assert Says(v, group, Protocol, protocol);
        ParseSaysWhatGroupsSay(v, flags, Protocol, protocol);
        assert protocol in Names(Parsed(v, flags), Protocol);
      case None =>
        assert Says(v, group, Flag, group);
        ParseSaysWhatGroupsSay(v, flags, Flag, group);
        assert group in Names(Parsed(v, flags), Flag);
    }
  }

  lemma NamesComeWithProtocol(v: Vocabulary, flags: string)
    ensures Parsed(v, flags).keyMgmt != {} ==> Parsed(v, flags).protocols != {}
  {
    if name :| name in Parsed(v, flags).keyMgmt {
      assert name in Names(Parsed(v, flags), KeyManagement);
      ParseSaysWhatGroupsSay(v, flags, KeyManagement, name);
      var group :| InFlags(group, flags) && Says(v, group, KeyManagement, name);
      EveryGroupCounts(v, flags, group);
    }
  }

  /** A group that names a protocol, or is WEP. */
  predicate Secured(v: Vocabulary, group: string) {
    ProtocolOf(v, group).Some? || group == "WEP"
  }

  /** Open is the answer exactly when no group names a protocol and none is WEP. */
  lemma OpenSafety(v: Vocabulary, flags: string)
    ensures Parsed(v, flags).Open() <==> !exists group :: InFlags(group, flags) && Secured(v, group)
  {
    var s := Parsed(v, flags);
    NamesComeWithProtocol(v, flags);
    if group :| InFlags(group, flags) && Secured(v, group) {
      EveryGroupCounts(v, flags, group);
    }
    if protocol :| protocol in s.protocols {
      assert protocol in Names(s, Protocol);
      ParseSaysWhatGroupsSay(v, flags, Protocol, protocol);
      var group :| InFlags(group, flags) && Says(v, group, Protocol, protocol);
      assert Secured(v, group);
    }
    if s.Wep() {
      assert "WEP" in Names(s, Flag);
      ParseSaysWhatGroupsSay(v, flags, Flag, "WEP");
      var group :| InFlags(group, flags) && Says(v, group, Flag, "WEP");
      assert Secured(v, group);
    }
  }

  // ----- parsing in parts

  predicate Closed(flags: string) {
    flags == "" || flags[|flags| - 1] == ']'
  }

  lemma {:induction false} PiecesUnion(v: Vocabulary, a: seq<string>, b: seq<string>)
    ensures SecurityOfPieces(v, a + b) == Union(SecurityOfPieces(v, a), SecurityOfPieces(v, b))
  {
    if b == [] {
      assert a + b == a;
    } else {
      var n := |b| - 1;
      assert (a + b)[..|a + b| - 1] == a + b[..n];
      PiecesUnion(v, a, b[..n]);
      UnionAssociates(SecurityOfPieces(v, a), SecurityOfPieces(v, b[..n]), GroupSecurity(v, GroupOf(b[n])));
    }
  }

  lemma UnionAssociates(a: Security, b: Security, c: Security)
    ensures Union(Union(a, b), c) == Union(a, Union(b, c))
    ensures Union(a, NOTHING) == a == Union(NOTHING, a)
    ensures Union(a, b) == Union(b, a)
  {
  }

  lemma EmptyPiece(v: Vocabulary)
    ensures Split("", ']') == [""]
    ensures SecurityOfPieces(v, [""]) == NOTHING
  {
    assert [""][..0] == [];
    assert GroupOf("") == "";
    UnionAssociates(NOTHING, NOTHING, NOTHING);
  }

  lemma ClosedParts(v: Vocabulary, head: string, b: string)
    ensures Parsed(v, head + "]" + b) == Union(SecurityOfPieces(v, Split(head, ']')), Parsed(v, b))
  {
    SplitAt(head, ']', b);
    PiecesUnion(v, Split(head, ']'), Split(b, ']'));
  }

  lemma ClosedPart(v: Vocabulary, head: string)
    ensures Parsed(v, head + "]") == SecurityOfPieces(v, Split(head, ']'))
  {
    EmptyPiece(v);
    ClosedParts(v, head, "");
    assert head + "]" + "" == head + "]";
    UnionAssociates(SecurityOfPieces(v, Split(head, ']')), NOTHING, NOTHING);
  }

  /** Parsing is a homomorphism: flags cut after a closing bracket parse to the union of the parts. */
  lemma ParseIsHomomorphic(v: Vocabulary, a: string, b: string)
    requires Closed(a)
    ensures Parsed(v, a + b) == Union(Parsed(v, a), Parsed(v, b))
  {
    if a == "" {
      EmptyPiece(v);
      UnionAssociates(Parsed(v, b), NOTHING, NOTHING);
      assert a + b == b;
    } else {
      var head := a[..|a| - 1];
      assert a == head + "]";
      ClosedPart(v, head);
      ClosedParts(v, head, b);
    }
  }

  /** So the order of the groups does not matter. */
  lemma OrderDoesNotMatter(v: Vocabulary, a: string, b: string)
    requires Closed(a) && Closed(b)
    ensures Parsed(v, a + b) == Parsed(v, b + a)
  {
    ParseIsHomomorphic(v, a, b);
    ParseIsHomomorphic(v, b, a);
    UnionAssociates(Parsed(v, a), Parsed(v, b), NOTHING);
  }

  /** And adding groups never withdraws an offer, nor makes a network open that was not. */
  lemma OffersOnlyGrow(v: Vocabulary, a: string, b: string)
    requires Closed(a)
    ensures Parsed(v, a).Psk() ==> Parsed(v, a + b).Psk()
    ensures Parsed(v, a).Sae() ==> Parsed(v, a + b).Sae()
    ensures Parsed(v, a).TransitionMode() ==> Parsed(v, a + b).TransitionMode()
    ensures Parsed(v, a + b).Open() <==> Parsed(v, a).Open() && Parsed(v, b).Open()
  {
    ParseIsHomomorphic(v, a, b);
    UnionOffers(Parsed(v, a), Parsed(v, b));
  }

  lemma UnionOffers(a: Security, b: Security)
    ensures a.Psk() ==> Union(a, b).Psk()
    ensures a.Sae() ==> Union(a, b).Sae()
    ensures Union(a, b).Open() <==> a.Open() && b.Open()
  {
    assert Union(a, b).keyMgmt == {} ==> a.keyMgmt == a.keyMgmt * Union(a, b).keyMgmt;
  }

  // ----- what the two personal predicates count, in the vocabulary of a scan

  lemma Ending(name: string, suffix: string)
    requires |suffix| == 4
    ensures EndsWith(name, suffix)
       <==> (|name| >= 4 && name[|name| - 4] == suffix[0] && name[|name| - 3] == suffix[1]
             && name[|name| - 2] == suffix[2] && name[|name| - 1] == suffix[3])
  {
    assert EndsWith(name, suffix) ==>
      name[|name| - 4 + 0] == suffix[0] && name[|name| - 4 + 1] == suffix[1]
      && name[|name| - 4 + 2] == suffix[2] && name[|name| - 4 + 3] == suffix[3];
  }

  lemma Beginning(name: string, prefix: string)
    requires |prefix| == 4
    ensures prefix <= name
       <==> (|name| >= 4 && name[0] == prefix[0] && name[1] == prefix[1] && name[2] == prefix[2]
             && name[3] == prefix[3])
  {
  }

  /** Of the names a scan reports, these count as a passphrase network. */
  lemma PskNames(name: string)
    requires name in SCAN_KEY_MGMT
    ensures OffersPsk(name) <==> name == "PSK" || name == "FT/PSK" || name == "PSK-SHA256"
  {
    Ending(name, "/PSK");
    Beginning(name, "PSK-");
  }

  /** And these as SAE: the fast transition form of the extended key suite is not among them. */
  lemma SaeNames(name: string)
    requires name in SCAN_KEY_MGMT
    ensures OffersSae(name) <==> name == "SAE" || name == "FT/SAE" || name == "SAE-EXT-KEY"
  {
    Ending(name, "/SAE");
    Beginning(name, "SAE-");
  }

  lemma NamesAreKnown(v: Vocabulary, flags: string, name: string)
    requires name in Parsed(v, flags).keyMgmt
    ensures name in v.keyMgmt
  {
    assert name in Names(Parsed(v, flags), KeyManagement);
    ParseSaysWhatGroupsSay(v, flags, KeyManagement, name);
    var group :| InFlags(group, flags) && Says(v, group, KeyManagement, name);
    ScanIsSound(v.keyMgmt, group[|ProtocolOf(v, group).value| + 1..]);
  }

  /** The two personal predicates, name by name. A network whose only suite is FT/SAE-EXT-KEY offers
      neither by them, and is not open. */
  lemma PersonalOffers(flags: string)
    ensures var s := SecurityOf(flags);
      && (s.Psk() <==> "PSK" in s.keyMgmt || "FT/PSK" in s.keyMgmt || "PSK-SHA256" in s.keyMgmt)
      && (s.Sae() <==> "SAE" in s.keyMgmt || "FT/SAE" in s.keyMgmt || "SAE-EXT-KEY" in s.keyMgmt)
      && (s.keyMgmt == {"FT/SAE-EXT-KEY"} ==> !s.Psk() && !s.Sae() && !s.Open())
  {
    var s := SecurityOf(flags);
    forall name | name in s.keyMgmt
      ensures OffersPsk(name) <==> name == "PSK" || name == "FT/PSK" || name == "PSK-SHA256"
      ensures OffersSae(name) <==> name == "SAE" || name == "FT/SAE" || name == "SAE-EXT-KEY"
    {
      NamesAreKnown(SCAN, flags, name);
      PskNames(name);
      SaeNames(name);
    }
    BaseSuites();
  }

  lemma BaseSuites()
    ensures OffersPsk("PSK") && OffersPsk("FT/PSK") && OffersPsk("PSK-SHA256")
    ensures OffersSae("SAE") && OffersSae("FT/SAE") && OffersSae("SAE-EXT-KEY")
    ensures !OffersPsk("FT/SAE-EXT-KEY") && !OffersSae("FT/SAE-EXT-KEY")
  {
    Ending("FT/PSK", "/PSK");
    Ending("FT/SAE", "/SAE");
    Beginning("PSK-SHA256", "PSK-");
    Beginning("SAE-EXT-KEY", "SAE-");
    Ending("FT/SAE-EXT-KEY", "/PSK");
    Ending("FT/SAE-EXT-KEY", "/SAE");
  }

  // ----- a printed flags column reads back

  /** The text of the groups, each in its brackets. */
  function FlagsText(groups: seq<string>): string {
    if groups == [] then "" else FlagsText(groups[..|groups| - 1]) + ("[" + groups[|groups| - 1] + "]")
  }

  function GroupsSecurity(v: Vocabulary, groups: seq<string>): Security {
    if groups == [] then NOTHING
    else Union(GroupsSecurity(v, groups[..|groups| - 1]), GroupSecurity(v, groups[|groups| - 1]))
  }

  lemma OneGroup(v: Vocabulary, group: string)
    requires ']' !in group
    ensures Parsed(v, "[" + group + "]") == GroupSecurity(v, group)
  {
    var piece := "[" + group;
    ClosedPart(v, piece);
    IndexOfNone(piece, ']');
    assert piece[..|piece|] == piece;
    assert Split(piece, ']') == [piece];
    PartitionAt("", '[', group);
    assert "" + "[" + group == piece;
    assert [piece][..0] == [];
    UnionAssociates(GroupSecurity(v, group), NOTHING, NOTHING);
  }

  lemma {:induction false} FlagsReadBack(v: Vocabulary, groups: seq<string>)
    requires forall i | 0 <= i < |groups| :: ']' !in groups[i]
    ensures Closed(FlagsText(groups))
    ensures Parsed(v, FlagsText(groups)) == GroupsSecurity(v, groups)
  {
    if groups == [] {
      EmptyPiece(v);
    } else {
      var earlier, last := groups[..|groups| - 1], groups[|groups| - 1];
      FlagsReadBack(v, earlier);
      calc {
        Parsed(v, FlagsText(groups));
        Parsed(v, FlagsText(earlier) + ("[" + last + "]"));
        { ParseIsHomomorphic(v, FlagsText(earlier), "[" + last + "]"); }
        Union(Parsed(v, FlagsText(earlier)), Parsed(v, "[" + last + "]"));
        { OneGroup(v, last); }
        Union(GroupsSecurity(v, earlier), GroupSecurity(v, last));
      }
    }
  }

  lemma {:induction false} FirstProtocolIs(protocols: seq<string>, protocol: string, rest: string)
    requires protocol in protocols && forall i | 0 <= i < |protocols| :: '-' !in protocols[i]
    ensures FirstProtocol(protocols, protocol + "-" + rest) == Some(protocol)
  {
    var group := protocol + "-" + rest;
    IndexOfFirst(protocol, '-', rest);
    assert (protocol + "-") <= group;
    if protocols[0] + "-" <= group {
      assert group == protocols[0] + "-" + group[|protocols[0]| + 1..];
      IndexOfFirst(protocols[0], '-', group[|protocols[0]| + 1..]);
      assert protocols[0] == group[..|protocols[0]|] && protocol == group[..|protocol|];
    } else {
      FirstProtocolIs(protocols[1..], protocol, rest);
    }
  }

  lemma GroupOfNames(v: Vocabulary, protocol: string, names: seq<string>, body: string)
    requires protocol in v.protocols && forall i | 0 <= i < |v.protocols| :: '-' !in v.protocols[i]
    requires NamesOf(v.keyMgmt, body) == names
    ensures GroupSecurity(v, protocol + "-" + body) == Security(Elements(names), {protocol}, {})
  {
    FirstProtocolIs(v.protocols, protocol, body);
    assert (protocol + "-" + body)[|protocol| + 1..] == body;
  }

  /** A protocol, its key management names and its ciphers, printed as one group, read back as those
      names under that protocol. */
  lemma GroupReadsBack(v: Vocabulary, protocol: string, names: seq<string>, ciphers: string)
    requires GoodVocabulary(v.keyMgmt) && forall i | 0 <= i < |v.protocols| :: '-' !in v.protocols[i]
    requires protocol in v.protocols && names != []
    requires forall i | 0 <= i < |names| :: names[i] in v.keyMgmt
    requires (ciphers == "" || ciphers[0] == '-') && NoneLonger(v.keyMgmt, names[|names| - 1], ciphers)
    ensures GroupSecurity(v, protocol + "-" + (Join("+", names) + ciphers))
         == Security(Elements(names), {protocol}, {})
  {
    ScanIsExact(v.keyMgmt, names, ciphers);
    GroupOfNames(v, protocol, names, Join("+", names) + ciphers);
  }

  /** The protocols of a scan are told apart by what comes before the first dash. */
  lemma ProtocolsHoldNoDash()
    ensures forall i | 0 <= i < |PROTOCOLS| :: '-' !in PROTOCOLS[i]
  {
  }

  /** A flags column of one group of one name. */
  lemma OneNameReadsBack(v: Vocabulary, protocol: string, name: string, ciphers: string)
    requires GoodVocabulary(v.keyMgmt) && forall i | 0 <= i < |v.protocols| :: '-' !in v.protocols[i]
    requires protocol in v.protocols && name in v.keyMgmt
    requires (ciphers == "" || ciphers[0] == '-') && NoneLonger(v.keyMgmt, name, ciphers)
    requires ']' !in protocol && ']' !in name && ']' !in ciphers
    ensures Parsed(v, "[" + (protocol + "-" + (name + ciphers)) + "]") == Security({name}, {protocol}, {})
  {
    GroupReadsBack(v, protocol, [name], ciphers);
    assert Join("+", [name]) == name;
    OneGroup(v, protocol + "-" + (name + ciphers));
  }

  /** The suite whose fast transition form is the point. */
  predicate IsFtSaeExtKey(protocol: string, name: string, ciphers: string) {
    protocol == "RSN" && name == "FT/SAE-EXT-KEY" && ciphers == "-CCMP"
  }

  lemma FtSaeExtKeyText(protocol: string, name: string, ciphers: string)
    requires IsFtSaeExtKey(protocol, name, ciphers)
    ensures ']' !in protocol && ']' !in name && ']' !in ciphers && ClearCiphers(ciphers)
    ensures "[" + (protocol + "-" + (name + ciphers)) + "]" == "[RSN-FT/SAE-EXT-KEY-CCMP]"
  {
  }

  lemma FtSaeExtKeyKnown(protocol: string, name: string, ciphers: string)
    requires IsFtSaeExtKey(protocol, name, ciphers)
    ensures protocol in PROTOCOLS && name in SCAN_KEY_MGMT
  {
    assert PROTOCOLS[2] == protocol && SCAN_KEY_MGMT[1] == name;
  }

  lemma FtSaeExtKeyParsed(v: Vocabulary, protocol: string, name: string, ciphers: string)
    requires v.keyMgmt == SCAN_KEY_MGMT && v.protocols == PROTOCOLS && IsFtSaeExtKey(protocol, name, ciphers)
    ensures Parsed(v, "[RSN-FT/SAE-EXT-KEY-CCMP]") == Security({name}, {protocol}, {})
  {
    FtSaeExtKeyText(protocol, name, ciphers);
    FtSaeExtKeyKnown(protocol, name, ciphers);
    ScanVocabularyIsGood();
    ProtocolsHoldNoDash();
    ClearIsNoneLonger(name, ciphers);
    OneNameReadsBack(v, protocol, name, ciphers);
  }

  /** A flags text on which the predicates miss a personal network: it runs SAE, and counts as neither. */
  lemma FtSaeExtKeyCountsAsNothing(flags: string)
    requires flags == "[RSN-FT/SAE-EXT-KEY-CCMP]"
    ensures var s := SecurityOf(flags);
      s == Security({"FT/SAE-EXT-KEY"}, {"RSN"}, {}) && !s.Psk() && !s.Sae() && !s.Open()
  {
    FtSaeExtKeyParsed(SCAN, "RSN", "FT/SAE-EXT-KEY", "-CCMP");
    PersonalOffers(flags);
  }
}
