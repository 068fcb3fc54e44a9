/** What is true of reading blocks and tables back. */
module ReplyLaws {
  import opened Octets
  import opened Replies
  import opened Text
  import opened Wrappers

  // ----- blocks

  lemma {:induction false} VariablesAppend(a: seq<string>, b: seq<string>)
    ensures VariablesOf(a + b) == VariablesOf(a) + VariablesOf(b)
  {
    if b == [] {
      assert a + b == a;
    } else {
      var n := |b| - 1;
      assert (a + b)[..|a + b| - 1] == a + b[..n];
      VariablesAppend(a, b[..n]);
    }
  }

  lemma VariablesOfLine(key: string, value: string)
    requires '=' !in key
    ensures VariablesOf([key + "=" + value]) == map[key := value]
  {
    var lines := [key + "=" + value];
    assert lines[..0] == [];
    PartitionAt(key, '=', value);
  }

  /** Lines before and after a key=value line leave its key alone, unless a later one sets it again. */
  lemma LineAmong(before: seq<string>, key: string, value: string, after: seq<string>)
    requires '=' !in key && key !in VariablesOf(after)
    ensures var m := VariablesOf(before + ([key + "=" + value] + after)); key in m && m[key] == value
  {
    var line := [key + "=" + value];
    VariablesOfLine(key, value);
    VariablesAppend(line, after);
    VariablesAppend(before, line + after);
  }

  /** A key=value line of a block is found under its key, unless a later line sets the key again. */
  lemma BlockField(before: string, key: string, value: string, rest: string)
    requires EndsLine(before)
    requires '=' !in key && OneLine(key) && OneLine(value)
    requires key !in Variables(rest)
    ensures var m := Variables(before + (key + "=" + value + "\n" + rest)); key in m && m[key] == value
  {
    var line := key + "=" + value;
    SplitLinesAfter(before, line + "\n" + rest);
    SplitLinesStep(line, "\n", rest);
    LineAmong(SplitLines(before), key, value, SplitLines(rest));
  }

  /** The same for the last line of a block, the line feed that ended it being stripped. */
  lemma LastBlockField(before: string, key: string, value: string)
    requires EndsLine(before)
    requires '=' !in key && OneLine(key) && OneLine(value)
    ensures var m := Variables(before + (key + "=" + value)); key in m && m[key] == value
  {
    var line := key + "=" + value;
    SplitLinesAfter(before, line);
    SplitLinesLast(line);
    LineAmong(SplitLines(before), key, value, []);
    assert [line] + [] == [line];
  }

  /** The order holds each key once. */
  lemma {:induction false} OrderIsOfVariables(lines: seq<string>)
    ensures OrderOfMap(OrderOf(lines), VariablesOf(lines))
  {
    if lines != [] {
      var earlier := lines[..|lines| - 1];
      var parts := Partition(lines[|lines| - 1], '=');
      OrderIsOfVariables(earlier);
      if parts.found {
        EnteredOrder(OrderOf(earlier), VariablesOf(earlier), parts.head, parts.tail);
      }
    }
  }

  /** The order is that in which the keys first come: what earlier lines set stays in front. */
  lemma {:induction false} OrderIsByFirst(a: seq<string>, b: seq<string>)
    ensures OrderOf(a) <= OrderOf(a + b)
  {
    if b == [] {
      assert a + b == a;
    } else {
      var n := |b| - 1;
      assert (a + b)[..|a + b| - 1] == a + b[..n];
      OrderIsByFirst(a, b[..n]);
    }
  }

  // ----- tables

  lemma {:induction false} SplitLinesJoin(lines: seq<string>)
    requires lines != [] && lines[|lines| - 1] != ""
    requires forall i | 0 <= i < |lines| :: OneLine(lines[i])
    ensures SplitLines(Join("\n", lines)) == lines
  {
    if |lines| == 1 {
      SplitLinesLast(lines[0]);
    } else {
      var others := lines[1..];
      assert others[|others| - 1] == lines[|lines| - 1];
      calc {
        SplitLines(Join("\n", lines));
        SplitLines(lines[0] + "\n" + Join("\n", others));
        { SplitLinesStep(lines[0], "\n", Join("\n", others)); }
        [lines[0]] + SplitLines(Join("\n", others));
        { SplitLinesJoin(others); }
        [lines[0]] + others;
        lines;
      }
    }
  }

  lemma SplitRow(others: seq<string>, last: string)
    requires forall i | 0 <= i < |others| :: '\t' !in others[i]
    ensures Split(Join("\t", others + [last]), '\t') == others + Split(last, '\t')
  {
    if others == [] {
      assert others + [last] == [last] && others + Split(last, '\t') == Split(last, '\t');
    } else {
      var head := Join("\t", others);
      calc {
        Split(Join("\t", others + [last]), '\t');
        { JoinAppend("\t", others, [last]); }
        Split(head + "\t" + last, '\t');
        { SplitAt(head, '\t', last); }
        Split(head, '\t') + Split(last, '\t');
        { SplitJoin(others, '\t'); }
        others + Split(last, '\t');
      }
    }
  }

  /** A row of fields is read back whole, even when the last field holds separators. */
  lemma RowReadsBack(others: seq<string>, last: string)
    requires forall i | 0 <= i < |others| :: '\t' !in others[i]
    requires Strip(Join("\t", others + [last])) != ""
    ensures RowOf(Join("\t", others + [last]), |others| + 1) == Some(others + [last])
  {
    var fields := others + Split(last, '\t');
    SplitRow(others, last);
    assert fields[|others|..] == Split(last, '\t') && fields[..|others|] == others;
    JoinSplit(last, '\t');
  }

  function RowTexts(rows: seq<seq<string>>): (texts: seq<string>)
    ensures |texts| == |rows|
    ensures forall i | 0 <= i < |rows| :: texts[i] == Join("\t", rows[i])
  {
    if rows == [] then [] else RowTexts(rows[..|rows| - 1]) + [Join("\t", rows[|rows| - 1])]
  }

  /** A row the daemon can print: no line breaks, separators only in the last field, not blank. */
  predicate CleanRow(row: seq<string>) {
    row != [] && OneLine(Join("\t", row)) && Strip(Join("\t", row)) != ""
    && forall i | 0 <= i < |row| - 1 :: '\t' !in row[i]
  }

  lemma CleanRowReadsBack(row: seq<string>)
    requires CleanRow(row)
    ensures RowOf(Join("\t", row), |row|) == Some(row)
  {
    var others, last := row[..|row| - 1], row[|row| - 1];
    InitLast(row);
    assert forall i | 0 <= i < |others| :: others[i] == row[i];
    RowReadsBack(others, last);
  }

  lemma RowsSnoc(lines: seq<string>, line: string, row: seq<string>)
    requires row != [] && RowOf(line, |row|) == Some(row)
    ensures RowsOf(lines + [line], |row|) == RowsOf(lines, |row|) + [row]
  {
    assert (lines + [line])[..|lines|] == lines;
  }

  lemma {:induction false} RowsReadBack(rows: seq<seq<string>>, columns: nat)
    requires forall i | 0 <= i < |rows| :: |rows[i]| == columns && CleanRow(rows[i])
    ensures RowsOf(RowTexts(rows), columns) == rows
  {
    if rows != [] {
      var n := |rows| - 1;
      calc {
        RowsOf(RowTexts(rows), columns);
        RowsOf(RowTexts(rows[..n]) + [Join("\t", rows[n])], columns);
        { CleanRowReadsBack(rows[n]); RowsSnoc(RowTexts(rows[..n]), Join("\t", rows[n]), rows[n]); }
        RowsOf(RowTexts(rows[..n]), columns) + [rows[n]];
        { RowsReadBack(rows[..n], columns); }
        rows[..n] + [rows[n]];
        rows;
      }
    }
  }

  function TableText(header: string, rows: seq<seq<string>>): string {
    Join("\n", [header] + RowTexts(rows))
  }

  /** A printed table reads back as its rows. */
  lemma TableReadsBack(header: string, rows: seq<seq<string>>, columns: nat)
    requires header != "" && OneLine(header)
    requires forall i | 0 <= i < |rows| :: |rows[i]| == columns && CleanRow(rows[i])
    ensures Table(TableText(header, rows), columns) == rows
  {
    var lines := [header] + RowTexts(rows);
    forall i | 0 <= i < |lines| ensures OneLine(lines[i]) && lines[i] != "" {
      if i > 0 {
        assert lines[i] == Join("\t", rows[i - 1]) && CleanRow(rows[i - 1]);
      }
    }
    SplitLinesJoin(lines);
    assert lines[1..] == RowTexts(rows);
    RowsReadBack(rows, columns);
  }

  lemma {:induction false} JoinClean(parts: seq<string>)
    requires forall i | 0 <= i < |parts| :: OneLine(parts[i])
    ensures OneLine(Join("\t", parts))
  {
    if |parts| > 1 {
      JoinClean(parts[1..]);
    }
  }

  lemma {:induction false} JoinKeeps(parts: seq<string>, i: nat, k: nat)
    requires i < |parts| && k < |parts[i]| && !IsSpace(parts[i][k])
    ensures Strip(Join("\t", parts)) != ""
  {
    var line := Join("\t", parts);
    if |parts| > 1 {
      var rest := Join("\t", parts[1..]);
      assert line == parts[0] + "\t" + rest;
      if i == 0 {
        assert line[k] == parts[0][k];
      } else {
        JoinKeeps(parts[1..], i - 1, k);
        var j :| 0 <= j < |rest| && !IsSpace(rest[j]);
        assert line[|parts[0]| + 1 + j] == rest[j];
      }
    }
  }

  // ----- the two tables the client reads

  predicate CleanNetwork(n: Network) {
    OneLine(n.ssid) && OneLine(n.bssid) && OneLine(n.flags) && '\t' !in n.ssid && '\t' !in n.bssid
  }

  function NetworkRow(n: Network): seq<string> {
    [IntText(n.id), n.ssid, n.bssid, n.flags]
  }

  function NetworkRows(networks: seq<Network>): (rows: seq<seq<string>>)
    ensures |rows| == |networks|
    ensures forall i | 0 <= i < |rows| :: rows[i] == NetworkRow(networks[i])
  {
    if networks == [] then []
    else NetworkRows(networks[..|networks| - 1]) + [NetworkRow(networks[|networks| - 1])]
  }

  lemma CleanNetworkRow(n: Network)
    requires CleanNetwork(n)
    ensures CleanRow(NetworkRow(n))
  {
    JoinClean(NetworkRow(n));
    JoinKeeps(NetworkRow(n), 0, 0);
  }

  lemma CleanNetworkRows(networks: seq<Network>)
    requires forall i | 0 <= i < |networks| :: CleanNetwork(networks[i])
    ensures forall i | 0 <= i < |networks| :: |NetworkRows(networks)[i]| == 4 && CleanRow(NetworkRows(networks)[i])
  {
    forall i | 0 <= i < |networks| ensures CleanRow(NetworkRows(networks)[i]) {
      CleanNetworkRow(networks[i]);
    }
  }

  lemma NetworksSnoc(rows: seq<seq<string>>, n: Network)
    requires forall i | 0 <= i < |rows| :: |rows[i]| == 4
    ensures NetworksOf(rows + [NetworkRow(n)]) == NetworksOf(rows) + [n]
  {
    assert (rows + [NetworkRow(n)])[..|rows|] == rows;
    ParseIntText(n.id);
  }

  lemma {:induction false} NetworksOfRows(networks: seq<Network>)
    ensures NetworksOf(NetworkRows(networks)) == networks
  {
    if networks != [] {
      var earlier, last := networks[..|networks| - 1], networks[|networks| - 1];
      InitLast(networks);
      NetworksOfRows(earlier);
      NetworksSnoc(NetworkRows(earlier), last);
    }
  }

  /** A printed LIST_NETWORKS reply reads back as its networks. */
  lemma NetworksReadBack(header: string, networks: seq<Network>)
    requires header != "" && OneLine(header)
    requires forall i | 0 <= i < |networks| :: CleanNetwork(networks[i])
    ensures Networks(TableText(header, NetworkRows(networks))) == networks
  {
    CleanNetworkRows(networks);
    TableReadsBack(header, NetworkRows(networks), 4);
    NetworksOfRows(networks);
  }

  predicate CleanScanResult(r: ScanResult) {
    OneLine(r.bssid) && OneLine(r.flags) && OneLine(r.ssid) && '\t' !in r.bssid && '\t' !in r.flags
  }

  function ScanRow(r: ScanResult): seq<string> {
    [r.bssid, IntText(r.frequency), IntText(r.signalLevel), r.flags, r.ssid]
  }

  function ScanRows(results: seq<ScanResult>): (rows: seq<seq<string>>)
    ensures |rows| == |results|
    ensures forall i | 0 <= i < |rows| :: rows[i] == ScanRow(results[i])
  {
    if results == [] then []
    else ScanRows(results[..|results| - 1]) + [ScanRow(results[|results| - 1])]
  }

  lemma CleanScanRow(r: ScanResult)
    requires CleanScanResult(r)
    ensures CleanRow(ScanRow(r))
  {
    JoinClean(ScanRow(r));
    JoinKeeps(ScanRow(r), 1, 0);
  }

  lemma CleanScanRows(results: seq<ScanResult>)
    requires forall i | 0 <= i < |results| :: CleanScanResult(results[i])
    ensures forall i | 0 <= i < |results| :: |ScanRows(results)[i]| == 5 && CleanRow(ScanRows(results)[i])
  {
    forall i | 0 <= i < |results| ensures CleanRow(ScanRows(results)[i]) {
      CleanScanRow(results[i]);
    }
  }

  lemma ScanResultsSnoc(rows: seq<seq<string>>, r: ScanResult)
    requires forall i | 0 <= i < |rows| :: |rows[i]| == 5
    ensures ScanResultsOf(rows + [ScanRow(r)]) == ScanResultsOf(rows) + [r]
  {
    assert (rows + [ScanRow(r)])[..|rows|] == rows;
    ParseIntText(r.frequency);
    ParseIntText(r.signalLevel);
  }

  lemma {:induction false} ScanResultsOfRows(results: seq<ScanResult>)
    ensures ScanResultsOf(ScanRows(results)) == results
  {
    if results != [] {
      var earlier, last := results[..|results| - 1], results[|results| - 1];
      InitLast(results);
      ScanResultsOfRows(earlier);
      ScanResultsSnoc(ScanRows(earlier), last);
    }
  }

  /** A printed SCAN_RESULTS reply reads back as its rows. */
  lemma ScanResultsReadBack(header: string, results: seq<ScanResult>)
    requires header != "" && OneLine(header)
    requires forall i | 0 <= i < |results| :: CleanScanResult(results[i])
    ensures ScanResults(TableText(header, ScanRows(results))) == results
  {
    CleanScanRows(results);
    TableReadsBack(header, ScanRows(results), 5);
    ScanResultsOfRows(results);
  }

  // ----- address-headed replies

  /** The two digits of each octet of an address. */
  function HexPairs(b: seq<Octet>): (pairs: seq<string>)
    ensures |pairs| == |b|
    ensures forall i | 0 <= i < |b| :: |pairs[i]| == 2 && AllHex(pairs[i])
  {
    if b == [] then [] else [[HexDigit(b[0] / 16), HexDigit(b[0] % 16)]] + HexPairs(b[1..])
  }

  function AddressText(b: seq<Octet>): string {
    Join(":", HexPairs(b))
  }

  predicate AddressChars(s: string) {
    forall i | 0 <= i < |s| :: IsHexDigit(s[i]) || s[i] == ':'
  }

  lemma {:induction false} JoinedChars(pairs: seq<string>)
    requires pairs != [] && forall i | 0 <= i < |pairs| :: |pairs[i]| == 2 && AllHex(pairs[i])
    ensures Join(":", pairs) != "" && AddressChars(Join(":", pairs))
  {
    if |pairs| > 1 {
      JoinedChars(pairs[1..]);
    }
  }

  lemma AddressIsAddress(b: seq<Octet>)
    requires |b| == 6
    ensures IsAddress(AddressText(b)) && Strip(AddressText(b)) == AddressText(b) && '\n' !in AddressText(b)
  {
    JoinedChars(HexPairs(b));
    SplitJoin(HexPairs(b), ':');
  }

  /** An address printed on the first line is found there, with the variables under it. */
  lemma AddressReadsBack(b: seq<Octet>, rest: string)
    requires |b| == 6
    ensures AddressedVariables(AddressText(b) + "\n" + rest) == Some((AddressText(b), Variables(rest)))
  {
    AddressIsAddress(b);
    PartitionAt(AddressText(b), '\n', rest);
  }

  lemma {:induction false} StripLacks(s: string, c: char)
    requires c !in s
    ensures c !in Strip(s)
    decreases |s|
  {
    if s != "" && IsSpace(s[0]) {
      StripLacks(s[1..], c);
    } else if s != "" && IsSpace(s[|s| - 1]) {
      StripLacks(s[..|s| - 1], c);
    }
  }

  /** A reply without a colon names no entry. */
  lemma NoAddress(reply: string)
    requires ':' !in reply
    ensures AddressedVariables(reply) == None
  {
    var head := Partition(reply, '\n').head;
    assert head <= reply;
    StripLacks(head, ':');
    IndexOfNone(Strip(head), ':');
  }

  predicate SaysNoEntry(reply: string) {
    reply == "" || reply == "FAIL" || reply == "UNKNOWN COMMAND"
  }

  lemma NoColon(reply: string)
    requires SaysNoEntry(reply)
    ensures ':' !in reply
  {
  }

  /** So the three ways the daemon says that there is no such entry are read as that. */
  lemma NoEntryIsRead(reply: string)
    requires SaysNoEntry(reply)
    ensures AddressedVariables(reply) == None
  {
    NoColon(reply);
    NoAddress(reply);
  }
}
