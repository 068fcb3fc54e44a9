/** One octet string, many spellings: every way the daemon or a configuration carries an SSID hands the
    client the same octets. */
module Carriers {
  import opened Dpp
  import opened EventLaws
  import opened Events
  import opened Octets
  import opened PrintfLaws
  import opened Replies
  import opened ReplyLaws
  import opened Ssid
  import opened Text
  import opened Wrappers

  /** x with what comes before it and what comes after it. */
  function Amid<T>(before: seq<T>, x: T, after: seq<T>): (s: seq<T>)
    ensures |s| == |before| + 1 + |after|
    ensures s[|before|] == x
    ensures forall i | 0 <= i < |before| :: s[i] == before[i]
    ensures forall i | |before| < i < |s| :: s[i] == after[i - |before| - 1]
  {
    before + [x] + after
  }

  /** A place an SSID travels in, with all that surrounds it there. */
  datatype Carrier =
    | Block(before: string, rest: string)
    | LastInBlock(before: string)
    | ScanRow(header: string, aboveScan: seq<ScanResult>, scan: ScanResult, belowScan: seq<ScanResult>)
    | NetworkList(header: string, above: seq<Network>, network: Network, below: seq<Network>)
    | TempDisabledEvent(priority: int, earlier: seq<Field>, later: seq<Field>, feeds: nat)
    | ConfigLine
    | PrintfConfigLine
    | HexConfigLine
    | DppParams(conf: string, passphrase: string, configurator: Option<string>, extra: seq<Param>)

  /** The surroundings are what the daemon can print: line breaks and separators only where they belong,
      the ssid key not set again further on. */
  predicate Clean(c: Carrier, b: seq<Octet>) {
    match c
    case Block(before, rest) => EndsLine(before) && "ssid" !in Variables(rest)
    case LastInBlock(before) => EndsLine(before)
    case ScanRow(header, above, scan, below) =>
      header != "" && OneLine(header) && CleanScanResult(scan)
      && (forall i | 0 <= i < |above| :: CleanScanResult(above[i]))
      && (forall i | 0 <= i < |below| :: CleanScanResult(below[i]))
    case NetworkList(header, above, network, below) =>
      header != "" && OneLine(header) && CleanNetwork(network)
      && (forall i | 0 <= i < |above| :: CleanNetwork(above[i]))
      && (forall i | 0 <= i < |below| :: CleanNetwork(below[i]))
    case TempDisabledEvent(_, earlier, later, _) =>
      (forall i | 0 <= i < |earlier| :: CleanField(earlier[i]))
      && (forall i | 0 <= i < |later| :: CleanField(later[i]) && later[i].key != "ssid")
      && (later != [] ==> EndsInText(FieldText(later[|later| - 1])))
    case DppParams(conf, passphrase, configurator, extra) =>
      CleanText(conf) && CleanExtra(extra) && (configurator.Some? ==> CleanText(configurator.value))
      && DppConfiguratorParams(conf, Raw(b), Some(passphrase), None, configurator, extra).Ok?
    case _ => true
  }

  /** The text that carries the octets. */
  function Carry(c: Carrier, b: seq<Octet>): string
    requires Clean(c, b)
  {
    match c
    case Block(before, rest) => before + ("ssid" + "=" + Encoded(b) + "\n" + rest)
    case LastInBlock(before) => before + ("ssid" + "=" + Encoded(b))
    case ScanRow(header, above, scan, below) =>
      TableText(header, ScanRows(Amid(above, scan.(ssid := Encoded(b)), below)))
    case NetworkList(header, above, network, below) =>
      TableText(header, NetworkRows(Amid(above, network.(ssid := Encoded(b)), below)))
    case TempDisabledEvent(priority, earlier, later, feeds) =>
      "<" + IntText(priority) + ">"
      + (SSID_TEMP_DISABLED + " " + Join(" ", FieldTexts(Amid(earlier, Field("ssid", Printed(b)), later))))
      + Feeds(feeds)
    case ConfigLine => ConfigValue(b)
    case PrintfConfigLine => "P\"" + Encoded(b) + "\""
    case HexConfigLine => Hex(b)
    case DppParams(conf, passphrase, configurator, extra) =>
      DppConfiguratorParams(conf, Raw(b), Some(passphrase), None, configurator, extra).value
  }

  /** What the accessor for that place answers. */
  function Deliver(c: Carrier, text: string): Option<seq<Octet>> {
    match c
    case Block(_, _) => BlockSsid(Variables(text))
    case LastInBlock(_) => BlockSsid(Variables(text))
    case ScanRow(_, above, _, _) =>
      var results := ScanResults(text);
      if |above| < |results| then Some(results[|above|].SsidBytes()) else None
    case NetworkList(_, above, _, _) =>
      var networks := Networks(text);
      if |above| < |networks| then Some(networks[|above|].SsidBytes()) else None
    case TempDisabledEvent(_, _, _, _) =>
      (match TempDisabledSsid(EventOf(text)) case Ok(ssid) => ssid case Err(_) => None)
    case DppParams(_, _, _, _) =>
      var m := Params(text);
      if "ssid" in m then FromConfigValue(m["ssid"]) else None
    case _ => FromConfigValue(text)
  }

  function FromConfigValue(value: string): Option<seq<Octet>> {
    match FromConfig(value)
    case Ok(b) => Some(b)
    case Err(_) => None
  }

  lemma EncodedIsClean(b: seq<Octet>)
    ensures OneLine(Encoded(b)) && '\t' !in Encoded(b)
  {
    assert forall i | 0 <= i < |Encoded(b)| :: 32 <= Encoded(b)[i] as int <= 126;
  }

  lemma SsidKey(key: string)
    requires key == "ssid"
    ensures '=' !in key && OneLine(key) && CleanKey(key)
  {
  }

  lemma BlockDelivers(before: string, rest: string, b: seq<Octet>)
    requires EndsLine(before) && "ssid" !in Variables(rest)
    ensures BlockSsid(Variables(before + ("ssid" + "=" + Encoded(b) + "\n" + rest))) == Some(b)
  {
    SsidKey("ssid");
    EncodedIsClean(b);
    BlockField(before, "ssid", Encoded(b), rest);
    RoundTrip(b);
  }

  lemma LastInBlockDelivers(before: string, b: seq<Octet>)
    requires EndsLine(before)
    ensures BlockSsid(Variables(before + ("ssid" + "=" + Encoded(b)))) == Some(b)
  {
    SsidKey("ssid");
    EncodedIsClean(b);
    LastBlockField(before, "ssid", Encoded(b));
    RoundTrip(b);
  }

  lemma ScanRowDelivers(header: string, above: seq<ScanResult>, scan: ScanResult, below: seq<ScanResult>,
                        b: seq<Octet>)
    requires Clean(ScanRow(header, above, scan, below), b)
    ensures var text := TableText(header, ScanRows(Amid(above, scan.(ssid := Encoded(b)), below)));
      |ScanResults(text)| > |above| && ScanResults(text)[|above|].SsidBytes() == b
  {
    var results := Amid(above, scan.(ssid := Encoded(b)), below);
    EncodedIsClean(b);
    assert CleanScanResult(results[|above|]);
    ScanResultsReadBack(header, results);
    RoundTrip(b);
  }

  lemma NetworkListDelivers(header: string, above: seq<Network>, network: Network, below: seq<Network>,
                            b: seq<Octet>)
    requires Clean(NetworkList(header, above, network, below), b)
    ensures var text := TableText(header, NetworkRows(Amid(above, network.(ssid := Encoded(b)), below)));
      |Networks(text)| > |above| && Networks(text)[|above|].SsidBytes() == b
  {
    var networks := Amid(above, network.(ssid := Encoded(b)), below);
    EncodedIsClean(b);
    assert CleanNetwork(networks[|above|]);
    NetworksReadBack(header, networks);
    RoundTrip(b);
  }

  lemma {:induction false} JoinEndsInText(parts: seq<string>)
    requires parts != [] && parts[|parts| - 1] != "" && EndsInText(parts[|parts| - 1])
    ensures EndsInText(Join(" ", parts))
  {
    if |parts| > 1 {
      JoinEndsInText(parts[1..]);
      assert Join(" ", parts) == parts[0] + " " + Join(" ", parts[1..]);
    }
  }

  lemma WithSsidClean(earlier: seq<Field>, later: seq<Field>, b: seq<Octet>)
    requires Clean(TempDisabledEvent(0, earlier, later, 0), b)
    ensures var fields := Amid(earlier, Field("ssid", Printed(b)), later);
      && (forall i | 0 <= i < |fields| :: CleanField(fields[i]))
      && (forall i | |earlier| < i < |fields| :: fields[i].key != "ssid")
  {
    SsidKey("ssid");
  }

  lemma EventFields(earlier: seq<Field>, later: seq<Field>, b: seq<Octet>)
    requires Clean(TempDisabledEvent(0, earlier, later, 0), b)
    ensures var payload := Join(" ", FieldTexts(Amid(earlier, Field("ssid", Printed(b)), later)));
      EndsInText(payload) && "ssid" in Params(payload) && Params(payload)["ssid"] == Encoded(b)
  {
    var fields := Amid(earlier, Field("ssid", Printed(b)), later);
    WithSsidClean(earlier, later, b);
    PayloadReadsBack(fields);
    FieldMapAt(fields, |earlier|);
    PayloadEnd(fields);
  }

  lemma PayloadEnd(fields: seq<Field>)
    requires fields != [] && CleanField(fields[|fields| - 1])
    requires fields[|fields| - 1].value.Bare? ==> EndsInText(FieldText(fields[|fields| - 1]))
    ensures EndsInText(Join(" ", FieldTexts(fields)))
  {
    JoinEndsInText(FieldTexts(fields));
  }

  lemma EventDelivers(priority: int, earlier: seq<Field>, later: seq<Field>, feeds: nat, b: seq<Octet>)
    requires Clean(TempDisabledEvent(priority, earlier, later, feeds), b)
    ensures TempDisabledSsid(EventOf(Carry(TempDisabledEvent(priority, earlier, later, feeds), b))) == Ok(Some(b))
  {
    var fields := Amid(earlier, Field("ssid", Printed(b)), later);
    EventFields(earlier, later, b);
    EventName(SSID_TEMP_DISABLED);
    ParseEventOf(priority, SSID_TEMP_DISABLED, Join(" ", FieldTexts(fields)), feeds);
    RoundTrip(b);
  }

  lemma EventName(name: string)
    requires name == SSID_TEMP_DISABLED
    ensures ' ' !in name
  {
  }

  /** Every carrier delivers exactly the octets it was given. */
  lemma EveryCarrierDelivers(c: Carrier, b: seq<Octet>)
    requires Clean(c, b)
    ensures Deliver(c, Carry(c, b)) == Some(b)
  {
    match c {
      case Block(before, rest) => BlockDelivers(before, rest, b);
      case LastInBlock(before) => LastInBlockDelivers(before, b);
      case ScanRow(header, above, scan, below) => ScanRowDelivers(header, above, scan, below, b);
      case NetworkList(header, above, network, below) => NetworkListDelivers(header, above, network, below, b);
      case TempDisabledEvent(priority, earlier, later, feeds) => EventDelivers(priority, earlier, later, feeds, b);
      case DppParams(conf, passphrase, configurator, extra) =>
        ConfiguratorParamsReadBack(conf, Raw(b), Some(passphrase), None, configurator, extra);
      case ConfigLine => ConfigSpellingsAgree(b);
      case PrintfConfigLine => ConfigSpellingsAgree(b);
      case HexConfigLine => ConfigSpellingsAgree(b);
    }
  }

  /** So the spellings of two places mean the same network exactly when they were made of the same octets. */
  lemma SpellingsMeetAsOctets(c: Carrier, d: Carrier, a: seq<Octet>, b: seq<Octet>)
    requires Clean(c, a) && Clean(d, b)
    ensures Deliver(c, Carry(c, a)) == Deliver(d, Carry(d, b)) <==> a == b
  {
    EveryCarrierDelivers(c, a);
    EveryCarrierDelivers(d, b);
  }
}
