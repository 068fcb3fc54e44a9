/** wpa_ctrl/replies.py: the two reply parsers and the rows and blocks they produce, with the row types
    of wpa_ctrl/client.py's list_networks and scan_results. */
module Replies {
  import opened Octets
  import opened Printf
  import opened Text
  import opened Wrappers

  // ----- variable=value blocks

  function VariablesOf(lines: seq<string>): map<string, string> {
    if lines == [] then map[]
    else
      var earlier := VariablesOf(lines[..|lines| - 1]);
      var parts := Partition(lines[|lines| - 1], '=');
      if parts.found then earlier[parts.head := parts.tail] else earlier
  }

  /** The keys in the order the dictionary keeps them. */
  function OrderOf(lines: seq<string>): seq<string> {
    if lines == [] then []
    else
      var earlier := OrderOf(lines[..|lines| - 1]);
      var parts := Partition(lines[|lines| - 1], '=');
      if parts.found then Entered(earlier, parts.head) else earlier
  }

  function Variables(reply: string): map<string, string> {
    VariablesOf(SplitLines(reply))
  }

  lemma VariablesStep(lines: seq<string>, i: nat)
    requires i < |lines|
    ensures var parts := Partition(lines[i], '=');
      VariablesOf(lines[..i + 1])
      == (if parts.found then VariablesOf(lines[..i])[parts.head := parts.tail] else VariablesOf(lines[..i]))
      && OrderOf(lines[..i + 1])
      == if parts.found then Entered(OrderOf(lines[..i]), parts.head) else OrderOf(lines[..i])
  {
    OneMore(lines, i);
  }

  method ParseVariables(reply: string) returns (variables: map<string, string>, order: seq<string>)
    ensures variables == Variables(reply) && order == OrderOf(SplitLines(reply))
  {
    variables, order := map[], [];
    var lines := SplitLines(reply);
    for i := 0 to |lines|
      invariant variables == VariablesOf(lines[..i]) && order == OrderOf(lines[..i])
    {
      VariablesStep(lines, i);
      var parts := Partition(lines[i], '=');
      if parts.found {
        variables, order := variables[parts.head := parts.tail], Entered(order, parts.head);
      }
    }
    assert lines[..|lines|] == lines;
  }

  /** The ssid_bytes accessor of a STATUS or BSS block. */
  function BlockSsid(variables: map<string, string>): Option<seq<Octet>> {
    if "ssid" in variables then Some(Decoded(variables["ssid"])) else None
  }

  // ----- tab-separated tables

  /** Where the slice [:columns - 1] ends: with no columns asked for it ends one field before the last. */
  function Kept(columns: nat, fields: nat): (n: nat)
    requires fields >= 1 && columns <= fields
    ensures n < fields
    ensures columns >= 1 ==> n == columns - 1
  {
    if columns == 0 then fields - 1 else columns - 1
  }

  /** The fields of a line, any surplus rejoined to the last; None for a blank or short line. */
  function RowOf(line: string, columns: nat): (row: Option<seq<string>>)
    ensures row.Some? && columns >= 1 ==> |row.value| == columns
  {
    if Strip(line) == "" then None
    else
      var fields := Split(line, '\t');
      if |fields| < columns then None
      else Some(fields[..Kept(columns, |fields|)] + [Join("\t", fields[Kept(columns, |fields|)..])])
  }

  function RowsOf(lines: seq<string>, columns: nat): (rows: seq<seq<string>>)
    ensures columns >= 1 ==> forall i | 0 <= i < |rows| :: |rows[i]| == columns
  {
    if lines == [] then []
    else
      var earlier := RowsOf(lines[..|lines| - 1], columns);
      match RowOf(lines[|lines| - 1], columns)
      case None => earlier
      case Some(row) => earlier + [row]
  }

  /** The lines of a table under its header, whatever the header says. */
  function TableLines(reply: string): seq<string> {
    var lines := SplitLines(reply);
    if lines == [] then [] else lines[1..]
  }

  function Table(reply: string, columns: nat): (rows: seq<seq<string>>)
    ensures columns >= 1 ==> forall i | 0 <= i < |rows| :: |rows[i]| == columns
  {
    RowsOf(TableLines(reply), columns)
  }

  lemma RowsStep(lines: seq<string>, columns: nat, i: nat)
    requires i < |lines|
    ensures RowsOf(lines[..i + 1], columns) == match RowOf(lines[i], columns)
      case None => RowsOf(lines[..i], columns)
      case Some(row) => RowsOf(lines[..i], columns) + [row]
  {
    OneMore(lines, i);
  }

  method ParseTable(reply: string, columns: nat) returns (rows: seq<seq<string>>)
    ensures rows == Table(reply, columns)
  {
    rows := [];
    var lines := TableLines(reply);
    for i := 0 to |lines|
      invariant rows == RowsOf(lines[..i], columns)
    {
      var line := lines[i];
      RowsStep(lines, columns, i);
      if Strip(line) == "" {
        continue;
      }
      var fields := Split(line, '\t');
      if |fields| < columns {
        continue;
      }
      var kept := Kept(columns, |fields|);
      rows := rows + [fields[..kept] + [Join("\t", fields[kept..])]];
    }
    assert lines[..|lines|] == lines;
  }

  datatype Network = Network(id: int, ssid: string, bssid: string, flags: string) {
    function SsidBytes(): seq<Octet> {
      Decoded(ssid)
    }
  }

  datatype ScanResult = ScanResult(bssid: string, frequency: int, signalLevel: int, flags: string, ssid: string) {
    function SsidBytes(): seq<Octet> {
      Decoded(ssid)
    }
  }

  function NetworkOf(row: seq<string>): Option<Network>
    requires |row| == 4
  {
    match ParseInt(row[0])
    case None => None
    case Some(id) => Some(Network(id, row[1], row[2], row[3]))
  }

  /** The rows that parse; the others are dropped. */
  function NetworksOf(rows: seq<seq<string>>): seq<Network>
    requires forall i | 0 <= i < |rows| :: |rows[i]| == 4
  {
    if rows == [] then []
    else
      var earlier := NetworksOf(rows[..|rows| - 1]);
      match NetworkOf(rows[|rows| - 1])
      case None => earlier
      case Some(network) => earlier + [network]
  }

  function Networks(reply: string): seq<Network> {
    NetworksOf(Table(reply, 4))
  }

  lemma NetworksStep(rows: seq<seq<string>>, i: nat)
    requires i < |rows| && forall k | 0 <= k < |rows| :: |rows[k]| == 4
    ensures NetworksOf(rows[..i + 1]) == match NetworkOf(rows[i])
      case None => NetworksOf(rows[..i])
      case Some(network) => NetworksOf(rows[..i]) + [network]
  {
    OneMore(rows, i);
  }

  method ParseNetworks(reply: string) returns (networks: seq<Network>)
    ensures networks == Networks(reply)
  {
    networks := [];
    var rows := ParseTable(reply, 4);
    for i := 0 to |rows|
      invariant networks == NetworksOf(rows[..i])
    {
      NetworksStep(rows, i);
      var row := rows[i];
      match ParseInt(row[0]) {
        case None =>
        case Some(id) =>
          networks := networks + [Network(id, row[1], row[2], row[3])];
      }
    }
    assert rows[..|rows|] == rows;
  }

  function ScanResultOf(row: seq<string>): Option<ScanResult>
    requires |row| == 5
  {
    match (ParseInt(row[1]), ParseInt(row[2]))
    case (Some(frequency), Some(level)) => Some(ScanResult(row[0], frequency, level, row[3], row[4]))
    case (_, _) => None
  }

  function ScanResultsOf(rows: seq<seq<string>>): seq<ScanResult>
    requires forall i | 0 <= i < |rows| :: |rows[i]| == 5
  {
    if rows == [] then []
    else
      var earlier := ScanResultsOf(rows[..|rows| - 1]);
      match ScanResultOf(rows[|rows| - 1])
      case None => earlier
      case Some(result) => earlier + [result]
  }

  function ScanResults(reply: string): seq<ScanResult> {
    ScanResultsOf(Table(reply, 5))
  }

  lemma ScanResultsStep(rows: seq<seq<string>>, i: nat)
    requires i < |rows| && forall k | 0 <= k < |rows| :: |rows[k]| == 5
    ensures ScanResultsOf(rows[..i + 1]) == match ScanResultOf(rows[i])
      case None => ScanResultsOf(rows[..i])
      case Some(result) => ScanResultsOf(rows[..i]) + [result]
  {
    OneMore(rows, i);
  }

  method ParseScanResults(reply: string) returns (results: seq<ScanResult>)
    ensures results == ScanResults(reply)
  {
    results := [];
    var rows := ParseTable(reply, 5);
    for i := 0 to |rows|
      invariant results == ScanResultsOf(rows[..i])
    {
      ScanResultsStep(rows, i);
      var row := rows[i];
      var frequency, level := ParseInt(row[1]), ParseInt(row[2]);
      if frequency.Some? && level.Some? {
        results := results + [ScanResult(row[0], frequency.value, level.value, row[3], row[4])];
      }
    }
    assert rows[..|rows|] == rows;
  }

  // ----- address-headed replies

  predicate IsAddress(text: string) {
    var parts := Split(text, ':');
    |parts| == 6
    && forall i | 0 <= i < 6 :: |parts[i]| == 2 && IsHexDigit(parts[i][0]) && IsHexDigit(parts[i][1])
  }

  /** The address that heads a STA or P2P_PEER reply and the variables under it, if there is one. */
  function AddressedVariables(reply: string): Option<(string, map<string, string>)> {
    var parts := Partition(reply, '\n');
    var address := Strip(parts.head);
    if IsAddress(address) then Some((address, Variables(parts.tail))) else None
  }
}
