/** Lines of a reply that the parsers pass over, wherever they stand: what is around them is read as it would be
    without them. */
module StrayLines {
  import opened Replies
  import opened ReplyLaws
  import opened Text
  import opened TextLaws

  lemma SplitAround(before: string, line: string, rest: string)
    requires EndsLine(before) && OneLine(line)
    ensures SplitLines(before + (line + "\n" + rest)) == SplitLines(before) + ([line] + SplitLines(rest))
    ensures SplitLines(before + rest) == SplitLines(before) + SplitLines(rest)
  {
    SplitLinesAfter(before, line + "\n" + rest);
    SplitLinesStep(line, "\n", rest);
    SplitLinesAfter(before, rest);
  }

  // ----- blocks

  lemma VariablesOfStray(a: seq<string>, line: string, b: seq<string>)
    requires '=' !in line
    ensures VariablesOf(a + ([line] + b)) == VariablesOf(a + b)
  {
    VariablesAppend([line], b);
    VariablesAppend(a, [line] + b);
    VariablesAppend(a, b);
    assert [line][..0] == [];
    assert VariablesOf([line]) == map[];
  }

  lemma OrderOfMore(lines: seq<string>, line: string)
    ensures var parts := Partition(line, '=');
      OrderOf(lines + [line]) == if parts.found then Entered(OrderOf(lines), parts.head) else OrderOf(lines)
  {
    assert (lines + [line])[..|lines|] == lines;
  }

  lemma {:induction false} OrderOfStray(a: seq<string>, line: string, b: seq<string>)
    requires '=' !in line
    ensures OrderOf(a + ([line] + b)) == OrderOf(a + b)
  {
    if b == [] {
      assert a + ([line] + b) == a + [line] && a + b == a;
      OrderOfMore(a, line);
    } else {
      var n := |b| - 1;
      OneLonger(a, line, b);
      OrderOfStray(a, line, b[..n]);
      OrderOfMore(a + ([line] + b[..n]), b[n]);
      OrderOfMore(a + b[..n], b[n]);
    }
  }

  /** A line without an equals sign adds nothing to a block. */
  lemma StrayLineSaysNothing(before: string, line: string, rest: string)
    requires EndsLine(before) && OneLine(line) && '=' !in line
    ensures Variables(before + (line + "\n" + rest)) == Variables(before + rest)
    ensures OrderOf(SplitLines(before + (line + "\n" + rest))) == OrderOf(SplitLines(before + rest))
  {
    SplitAround(before, line, rest);
    VariablesOfStray(SplitLines(before), line, SplitLines(rest));
    OrderOfStray(SplitLines(before), line, SplitLines(rest));
  }

  // ----- tables

  lemma {:induction false} RowsOfAppend(a: seq<string>, b: seq<string>, columns: nat)
    ensures RowsOf(a + b, columns) == RowsOf(a, columns) + RowsOf(b, columns)
  {
    if b == [] {
      assert a + b == a;
    } else {
      var n := |b| - 1;
      assert (a + b)[..|a + b| - 1] == a + b[..n];
      RowsOfAppend(a, b[..n], columns);
    }
  }

  lemma RowsOfOne(line: string, columns: nat)
    ensures RowsOf([line], columns) == match RowOf(line, columns) case None => [] case Some(row) => [row]
  {
    assert [line][..0] == [];
    assert [line][|[line]| - 1] == line;
  }

  /** The rows of a table, line by line: those before a line, what the line gives, and those after it. */
  lemma TableAround(before: string, line: string, rest: string, columns: nat)
    requires before != "" && EndsLine(before) && OneLine(line)
    ensures Table(before + (line + "\n" + rest), columns)
         == Table(before, columns) + (RowsOf([line], columns) + RowsOf(SplitLines(rest), columns))
    ensures Table(before + rest, columns) == Table(before, columns) + RowsOf(SplitLines(rest), columns)
  {
    var lines, others := SplitLines(before), SplitLines(rest);
    SplitAround(before, line, rest);
    assert lines != [];
    DropAppend(lines, [line] + others, 1);
    DropAppend(lines, others, 1);
    RowsOfAppend(lines[1..], [line] + others, columns);
    RowsOfAppend([line], others, columns);
    RowsOfAppend(lines[1..], others, columns);
  }

  /** White space alone, or fewer fields than there are columns. */
  predicate NoRow(line: string, columns: nat) {
    Blank(line) || |Split(line, '\t')| < columns
  }

  lemma TooFewFields(fields: seq<string>, columns: nat)
    requires fields != [] && |fields| < columns && forall i | 0 <= i < |fields| :: '\t' !in fields[i]
    ensures NoRow(Join("\t", fields), columns)
  {
    SplitJoin(fields, '\t');
  }

  lemma NoRowGiven(line: string, columns: nat)
    requires NoRow(line, columns)
    ensures RowsOf([line], columns) == []
  {
    RowsOfOne(line, columns);
  }

  /** Under the header, a line that is no row is passed over. */
  lemma StrayRowIsSkipped(before: string, line: string, rest: string, columns: nat)
    requires before != "" && EndsLine(before) && OneLine(line) && NoRow(line, columns)
    ensures Table(before + (line + "\n" + rest), columns) == Table(before + rest, columns)
  {
    TableAround(before, line, rest, columns);
    NoRowGiven(line, columns);
    assert [] + RowsOf(SplitLines(rest), columns) == RowsOf(SplitLines(rest), columns);
  }

  /** And one that is is found in its place. */
  lemma RowInItsPlace(before: string, row: seq<string>, rest: string)
    requires before != "" && EndsLine(before) && CleanRow(row)
    ensures Table(before + (Join("\t", row) + "\n" + rest), |row|)
         == Table(before, |row|) + ([row] + RowsOf(SplitLines(rest), |row|))
  {
    TableAround(before, Join("\t", row), rest, |row|);
    RowsOfOne(Join("\t", row), |row|);
    CleanRowReadsBack(row);
  }

  // ----- rows whose numbers are none

  predicate AllOf(rows: seq<seq<string>>, columns: nat) {
    forall i | 0 <= i < |rows| :: |rows[i]| == columns
  }

  lemma NetworksOfMore(rows: seq<seq<string>>, row: seq<string>)
    requires AllOf(rows, 4) && |row| == 4
    ensures AllOf(rows + [row], 4) && NetworksOf(rows + [row]) == match NetworkOf(row)
      case None => NetworksOf(rows)
      case Some(network) => NetworksOf(rows) + [network]
  {
    assert (rows + [row])[..|rows|] == rows;
  }

  lemma {:induction false} NetworksOfStray(a: seq<seq<string>>, row: seq<string>, b: seq<seq<string>>)
    requires AllOf(a, 4) && AllOf(b, 4) && |row| == 4 && NetworkOf(row).None?
    requires AllOf(a + ([row] + b), 4) && AllOf(a + b, 4)
    ensures NetworksOf(a + ([row] + b)) == NetworksOf(a + b)
  {
    if b == [] {
      assert a + ([row] + b) == a + [row] && a + b == a;
      NetworksOfMore(a, row);
    } else {
      var n := |b| - 1;
      OneLonger(a, row, b);
      AllOfAround(a, row, b[..n], 4);
      NetworksOfStray(a, row, b[..n]);
      NetworksOfMore(a + ([row] + b[..n]), b[n]);
      NetworksOfMore(a + b[..n], b[n]);
    }
  }

  /** A network whose id is no number is left out of the list, the others are not. */
  lemma StrayNetworkIsSkipped(before: string, row: seq<string>, rest: string)
    requires before != "" && EndsLine(before) && |row| == 4 && CleanRow(row) && ParseInt(row[0]).None?
    ensures Networks(before + (Join("\t", row) + "\n" + rest)) == Networks(before + rest)
  {
    TableAround(before, Join("\t", row), rest, 4);
    RowInItsPlace(before, row, rest);
    AllOfAround(Table(before, 4), row, RowsOf(SplitLines(rest), 4), 4);
    NetworksOfStray(Table(before, 4), row, RowsOf(SplitLines(rest), 4));
  }

  lemma ScanResultsOfMore(rows: seq<seq<string>>, row: seq<string>)
    requires AllOf(rows, 5) && |row| == 5
    ensures AllOf(rows + [row], 5) && ScanResultsOf(rows + [row]) == match ScanResultOf(row)
      case None => ScanResultsOf(rows)
      case Some(result) => ScanResultsOf(rows) + [result]
  {
    assert (rows + [row])[..|rows|] == rows;
  }

  lemma AllOfAround(a: seq<seq<string>>, row: seq<string>, b: seq<seq<string>>, columns: nat)
    requires AllOf(a, columns) && AllOf(b, columns) && |row| == columns
    ensures AllOf(a + ([row] + b), columns) && AllOf(a + b, columns)
  {
  }

  lemma {:induction false} ScanResultsOfStray(a: seq<seq<string>>, row: seq<string>, b: seq<seq<string>>)
    requires AllOf(a, 5) && AllOf(b, 5) && |row| == 5 && ScanResultOf(row).None?
    requires AllOf(a + ([row] + b), 5) && AllOf(a + b, 5)
    ensures ScanResultsOf(a + ([row] + b)) == ScanResultsOf(a + b)
  {
    if b == [] {
      assert a + ([row] + b) == a + [row] && a + b == a;
      ScanResultsOfMore(a, row);
    } else {
      var n := |b| - 1;
      OneLonger(a, row, b);
      AllOfAround(a, row, b[..n], 5);
      ScanResultsOfStray(a, row, b[..n]);
      ScanResultsOfMore(a + ([row] + b[..n]), b[n]);
      ScanResultsOfMore(a + b[..n], b[n]);
    }
  }

  /** So is a scan result whose frequency or level is none. */
  lemma StrayScanResultIsSkipped(before: string, row: seq<string>, rest: string)
    requires before != "" && EndsLine(before) && |row| == 5 && CleanRow(row)
    requires ParseInt(row[1]).None? || ParseInt(row[2]).None?
    ensures ScanResults(before + (Join("\t", row) + "\n" + rest)) == ScanResults(before + rest)
  {
    TableAround(before, Join("\t", row), rest, 5);
    RowInItsPlace(before, row, rest);
    AllOfAround(Table(before, 5), row, RowsOf(SplitLines(rest), 5), 5);
    ScanResultsOfStray(Table(before, 5), row, RowsOf(SplitLines(rest), 5));
  }
}
