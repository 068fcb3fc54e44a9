/** What the keyed walks send, letter by letter, and what the entries they yield carry, told on the texts of the
    replies. */
module WalkEntries {
  import opened BssWalk
  import opened Octets
  import opened Printf
  import opened Replies
  import opened ReplyLaws
  import opened Text
  import opened TextLaws
  import opened Walks
  import opened Wrappers

  // ----- the variables of a block

  lemma VariablesAfter(line: string, rest: string)
    requires OneLine(line)
    ensures Variables(line + "\n" + rest) == VariablesOf([line]) + Variables(rest)
  {
    SplitLinesStep(line, "\n", rest);
    VariablesAppend([line], SplitLines(rest));
  }

  lemma NoVariables()
    ensures Variables("") == map[]
  {
  }

  /** The block of an entry holds its id and what the rest of it holds. */
  lemma BlockVariables(id: nat, rest: string)
    ensures Variables(BlockReply(id, rest)) == map["id" := IntText(id)] + Variables(rest)
  {
    var line := "id=" + IntText(id);
    IdKey("id");
    VariablesOfLine("id", IntText(id));
    assert "id" + "=" + IntText(id) == line;
    VariablesAfter(line, rest);
    SplitLinesLast(line);
    if rest == "" {
      NoVariables();
    }
  }

  // ----- the entries of iter_bss

  lemma FirstIsOne(t: Table, bound: int, id: nat, other: nat)
    requires IsFirstAfter(t, bound, id) && IsFirstAfter(t, bound, other)
    ensures id == other
  {
  }

  lemma ReplyIsBlock(t: Table, bound: int, reply: string, id: nat)
    requires RepliesAfter(t, bound, reply) && IsFirstAfter(t, bound, id)
    ensures reply == BlockReply(id, t[id])
  {
    var other :| IsFirstAfter(t, bound, other) && reply == BlockReply(other, t[other]);
    FirstIsOne(t, bound, id, other);
  }

  lemma ReplyOfYielded(c: Cursor, tables: seq<Table>, exchanges: seq<Exchange>, keys: seq<string>,
                       ids: seq<nat>, i: nat)
    requires Served(c, tables, exchanges) && Climbs(tables, ids) && KeysAre(keys, ids) && i < |ids|
    requires exchanges[i].command == CommandAt(c, keys, i)
    ensures ids[i] in tables[i] && "id" !in Variables(tables[i][ids[i]])
    ensures exchanges[i].reply == BlockReply(ids[i], tables[i][ids[i]])
  {
    assert ServedAt(c, tables, exchanges, i) && ClimbsAt(tables, ids, i);
    assert i > 0 ==> RepliesToNext(c, tables[i], exchanges[i].command, exchanges[i].reply, ids[i - 1]);
    ReplyIsBlock(tables[i], BoundAt(ids, i), exchanges[i].reply, ids[i]);
  }

  /** An entry is the block of its id in the table of its round trip: the id, and all the block says. */
  predicate IsBlock(e: Entry, t: Table, id: nat) {
    id in t && e == Entry(IntText(id), map["id" := IntText(id)] + Variables(t[id]))
  }

  lemma EntryIsBlock(c: Cursor, reply: string, t: Table, id: nat, e: Entry)
    requires c.BssCursor? && id in t && reply == BlockReply(id, t[id]) && "id" !in Variables(t[id])
    requires EntryOf(c, reply) == Some(e)
    ensures IsBlock(e, t, id)
  {
    BlockVariables(id, t[id]);
  }

  /** Every entry of a walk over a changing table is such a block. */
  lemma EntriesAreBlocks(c: Cursor, tables: seq<Table>, exchanges: seq<Exchange>, entries: seq<Entry>,
                         finished: bool) returns (ids: seq<nat>)
    requires c.BssCursor? && WalkOf(c, exchanges, entries, finished) && AllRead(c, exchanges)
    requires Served(c, tables, exchanges)
    ensures |ids| == |entries| <= |tables| && Climbs(tables, ids)
    ensures forall i | 0 <= i < |entries| :: IsBlock(entries[i], tables[i], ids[i])
  {
    ids := WalkClimbs(c, tables, exchanges, entries, finished, |entries|);
    forall i | 0 <= i < |entries| ensures IsBlock(entries[i], tables[i], ids[i]) {
      EntryRead(c, exchanges, entries, finished, i);
      ReplyOfYielded(c, tables, exchanges, KeysOf(entries), ids, i);
      EntryIsBlock(c, exchanges[i].reply, tables[i], ids[i], entries[i]);
    }
  }

  /** So it has its id under id, and each line of the block under its key, with its value. */
  lemma EntryHoldsLine(e: Entry, t: Table, id: nat, before: string, key: string, value: string, rest: string)
    requires IsBlock(e, t, id) && "id" !in Variables(t[id])
    requires EndsLine(before) && '=' !in key && OneLine(key) && OneLine(value)
    requires t[id] == before + (key + "=" + value) || (t[id] == before + (key + "=" + value + "\n" + rest)
                                                       && key !in Variables(rest))
    ensures "id" in e.variables && e.variables["id"] == e.key == IntText(id)
    ensures key in e.variables && e.variables[key] == value
  {
    if t[id] == before + (key + "=" + value) {
      LastBlockField(before, key, value);
    } else {
      BlockField(before, key, value, rest);
    }
  }

  // ----- the entries of iter_stations and iter_p2p_peers

  /** Six pairs of hexadecimal digits, of either case, colons between them. */
  predicate IsMac(text: string) {
    |text| == 17 && forall k | 0 <= k < 17 :: MacChar(text[k], k)
  }

  predicate MacChar(c: char, k: nat) {
    if k % 3 == 2 then c == ':' else IsHexDigit(c)
  }

  predicate IsPair(pair: string) {
    |pair| == 2 && AllHex(pair)
  }

  lemma PairBefore(pair: string, rest: string, k: nat)
    requires IsPair(pair) && k < 3 + |rest| && (k >= 3 ==> MacChar(rest[k - 3], k - 3))
    ensures MacChar((pair + ":" + rest)[k], k)
  {
  }

  lemma {:induction false} JoinOfPairs(pairs: seq<string>, k: nat)
    requires pairs != [] && forall i | 0 <= i < |pairs| :: IsPair(pairs[i])
    ensures |Join(":", pairs)| == 3 * |pairs| - 1
    ensures k < 3 * |pairs| - 1 ==> MacChar(Join(":", pairs)[k], k)
  {
    assert IsPair(pairs[0]);
    if |pairs| > 1 {
      JoinOfPairs(pairs[1..], if k < 3 then 0 else k - 3);
      if k < 3 * |pairs| - 1 {
        PairBefore(pairs[0], Join(":", pairs[1..]), k);
      }
    }
  }

  function PairsOf(text: string): (pairs: seq<string>)
    requires |text| % 3 == 2
    ensures 3 * |pairs| - 1 == |text|
    ensures forall i | 0 <= i < |pairs| :: pairs[i] == text[3 * i..3 * i + 2]
  {
    if |text| == 2 then [text] else [text[..2]] + PairsOf(text[3..])
  }

  lemma {:induction false} JoinPairsOf(text: string)
    requires |text| % 3 == 2 && forall k | 0 <= k < |text| :: MacChar(text[k], k)
    ensures Join(":", PairsOf(text)) == text
  {
    if |text| > 2 {
      assert forall k | 0 <= k < |text| - 3 :: MacChar(text[k + 3], k + 3) && text[3..][k] == text[k + 3];
      JoinPairsOf(text[3..]);
      assert MacChar(text[2], 2);
      assert text == text[..2] + ":" + text[3..];
      assert PairsOf(text)[1..] == PairsOf(text[3..]);
    }
  }

  /** An address is told by its form. */
  lemma AddressesAre(text: string)
    ensures IsAddress(text) <==> IsMac(text)
  {
    if IsAddress(text) {
      var pairs := Split(text, ':');
      JoinSplit(text, ':');
      forall k | 0 <= k < 17 ensures |text| == 17 && MacChar(text[k], k) {
        JoinOfPairs(pairs, k);
      }
      JoinOfPairs(pairs, 0);
    }
    if IsMac(text) {
      MacPairs(text);
      JoinPairsOf(text);
      SplitJoin(PairsOf(text), ':');
    }
  }

  lemma MacPairs(text: string)
    requires IsMac(text)
    ensures |PairsOf(text)| == 6
    ensures forall i | 0 <= i < 6 :: IsPair(PairsOf(text)[i]) && ':' !in PairsOf(text)[i]
  {
    forall i | 0 <= i < 6 ensures IsPair(PairsOf(text)[i]) && ':' !in PairsOf(text)[i] {
      assert MacChar(text[3 * i], 3 * i) && MacChar(text[3 * i + 1], 3 * i + 1);
    }
  }

  /** An address on the first line, with white space around it or none. */
  predicate HeadedBy(head: string, address: string) {
    IsMac(address) && '\n' !in head
    && exists i, j | 0 <= i <= j <= |head| :: Blank(head[..i]) && head[i..j] == address && Blank(head[j..])
  }

  lemma MacEnds(address: string)
    requires IsMac(address)
    ensures !IsSpace(address[0]) && !IsSpace(address[|address| - 1])
  {
    assert MacChar(address[0], 0) && MacChar(address[16], 16);
  }

  lemma HeadIsStripped(head: string, address: string)
    requires HeadedBy(head, address)
    ensures Strip(head) == address && IsAddress(address)
  {
    AddressesAre(address);
    MacEnds(address);
    var i, j :| 0 <= i <= j <= |head| && Blank(head[..i]) && head[i..j] == address && Blank(head[j..]);
    ThreeParts(head, i, j - i);
    StripOf(head[..i], address, head[j..]);
  }

  /** A reply headed by an address is read as an entry of that address, as it is spelled there, with the variables
      of what is under it; a reply of an address alone has none. */
  lemma AddressedEntry(c: Cursor, head: string, address: string, rest: string)
    requires !c.BssCursor? && HeadedBy(head, address)
    ensures EntryOf(c, head + "\n" + rest) == Some(Entry(address, Variables(rest)))
    ensures EntryOf(c, head) == Some(Entry(address, map[]))
  {
    HeadIsStripped(head, address);
    PartitionAt(head, '\n', rest);
    NoVariables();
  }

  lemma AddressHolds(c: Cursor, head: string, address: string, before: string, key: string, value: string,
                     rest: string, e: Entry)
    requires !c.BssCursor? && HeadedBy(head, address)
    requires EndsLine(before) && '=' !in key && OneLine(key) && OneLine(value) && key !in Variables(rest)
    requires EntryOf(c, head + "\n" + (before + (key + "=" + value + "\n" + rest))) == Some(e)
    ensures e.key == address && key in e.variables && e.variables[key] == value
  {
    AddressedEntry(c, head, address, before + (key + "=" + value + "\n" + rest));
    BlockField(before, key, value, rest);
  }

  /** In a walk over stations or peers, a reply so headed yields that address with each of its lines. */
  lemma YieldedStation(c: Cursor, exchanges: seq<Exchange>, entries: seq<Entry>, finished: bool, i: nat,
                       head: string, address: string, before: string, key: string, value: string, rest: string)
    requires !c.BssCursor? && WalkOf(c, exchanges, entries, finished) && AllRead(c, exchanges) && i < |entries|
    requires HeadedBy(head, address)
    requires EndsLine(before) && '=' !in key && OneLine(key) && OneLine(value) && key !in Variables(rest)
    requires exchanges[i].reply == head + "\n" + (before + (key + "=" + value + "\n" + rest))
    ensures entries[i].key == address
    ensures key in entries[i].variables && entries[i].variables[key] == value
  {
    EntryRead(c, exchanges, entries, finished, i);
    AddressHolds(c, head, address, before, key, value, rest, entries[i]);
  }

  // ----- what ends a walk

  /** Of a block, no entry is read exactly when no line of it sets the id. */
  lemma NoIdNoEntry(c: Cursor, reply: string)
    requires c.BssCursor?
    ensures EntryOf(c, reply).None? <==> forall value :: "id=" + value !in SplitLines(reply)
  {
    IdKey("id");
    IdIsSet(SplitLines(reply), "id");
  }

  lemma {:induction false} IdIsSet(lines: seq<string>, key: string)
    requires '=' !in key
    ensures key in VariablesOf(lines) <==> exists value :: key + "=" + value in lines
  {
    if lines != [] {
      var earlier, last := lines[..|lines| - 1], lines[|lines| - 1];
      InitLast(lines);
      IdIsSet(earlier, key);
      LineSets(last, key);
      var parts := Partition(last, '=');
      assert parts.found && parts.head == key ==> key + "=" + parts.tail in lines;
    }
  }

  lemma LineSets(line: string, key: string)
    requires '=' !in key
    ensures var parts := Partition(line, '=');
      parts.found && parts.head == key <==> exists value :: line == key + "=" + value
  {
    if value :| line == key + "=" + value {
      PartitionAt(key, '=', value);
    }
    var parts := Partition(line, '=');
    assert parts.found && parts.head == key ==> line == key + "=" + parts.tail;
  }

  /** Of a reply about a station or a peer, exactly when its first line is no address, white space aside. */
  lemma NoAddressNoEntry(c: Cursor, head: string, rest: string)
    requires !c.BssCursor? && '\n' !in head
    ensures EntryOf(c, head + "\n" + rest).None? <==> !IsMac(Strip(head))
    ensures EntryOf(c, head).None? <==> !IsMac(Strip(head))
  {
    AddressesAre(Strip(head));
    PartitionAt(head, '\n', rest);
  }

  // ----- the commands

  /** Lower-case digits that write the number, none in front that need not be there. */
  predicate IsHexOf(digits: string, n: nat) {
    AllHex(digits) && HexNumber(digits) == n && digits != "" && (digits[0] == '0' ==> n == 0)
    && forall k | 0 <= k < |digits| :: !('A' <= digits[k] <= 'F')
  }

  lemma {:induction false} HexTextIs(n: nat)
    ensures IsHexOf(HexText(n), n)
  {
    var s := HexText(n);
    if n < 16 {
      assert s[..0] == "";
    } else {
      HexTextIs(n / 16);
      assert s[..|s| - 1] == HexText(n / 16);
    }
  }

  /** A mask goes out in hexadecimal with its lowest bit set and every other as it was asked for. */
  lemma MaskIsSent(mask: int) returns (digits: string, n: nat)
    ensures IsHexOf(digits, n)
    ensures mask >= 0 ==> MaskText(Some(mask)) == " MASK=0x" + digits && n == mask / 2 * 2 + 1
    ensures mask < 0 ==> MaskText(Some(mask)) == " MASK=-0x" + digits && 0 - n == mask / 2 * 2 + 1
  {
    var bits := WithId(mask);
    n := if bits < 0 then -bits else bits;
    digits := HexText(n);
    HexTextIs(n);
    assert " MASK=" + ("0x" + digits) == " MASK=0x" + digits;
    assert " MASK=" + ("-0x" + digits) == " MASK=-0x" + digits;
  }

  /** What a walk sends: the command of its table's first entry, then the one that goes on from the entry before. */
  predicate SendsBss(exchanges: seq<Exchange>, entries: seq<Entry>, mask: string, i: nat)
    requires i < |exchanges| && i <= |entries|
  {
    exchanges[i].command == (if i == 0 then "BSS FIRST" else "BSS NEXT-" + entries[i - 1].key) + mask
  }

  predicate SendsStation(exchanges: seq<Exchange>, entries: seq<Entry>, i: nat)
    requires i < |exchanges| && i <= |entries|
  {
    exchanges[i].command == if i == 0 then "STA-FIRST" else "STA-NEXT " + entries[i - 1].key
  }

  predicate SendsPeer(exchanges: seq<Exchange>, entries: seq<Entry>, i: nat)
    requires i < |exchanges| && i <= |entries|
  {
    exchanges[i].command == if i == 0 then "P2P_PEER FIRST" else "P2P_PEER NEXT-" + entries[i - 1].key
  }

  lemma CommandsSent(c: Cursor, exchanges: seq<Exchange>, entries: seq<Entry>, finished: bool, i: nat)
    requires WalkOf(c, exchanges, entries, finished) && i < |exchanges|
    ensures c.StationCursor? ==> SendsStation(exchanges, entries, i)
    ensures c.PeerCursor? ==> SendsPeer(exchanges, entries, i)
    ensures c.BssCursor? ==> SendsBss(exchanges, entries, if c.mask.None? then "" else MaskText(c.mask), i)
  {
    assert SentAt(c, exchanges, entries, i);
  }
}
