/** iter_bss against a daemon whose table changes between the round trips. */
module BssWalk {
  import opened Replies
  import opened ReplyLaws
  import opened Text
  import opened Walks
  import opened Wrappers

  // ----- the daemon

  /** The BSS table: the other variables of each entry, under the entry's id. */
  type Table = map<nat, string>

  /** The block of an entry, as a request returns it: its id first, and set nowhere else. */
  function BlockReply(id: nat, rest: string): string {
    if rest == "" then "id=" + IntText(id) else "id=" + IntText(id) + "\n" + rest
  }

  predicate CleanTable(t: Table) {
    forall id | id in t :: "id" !in Variables(t[id])
  }

  /** id is the first of the table after the bound. */
  predicate IsFirstAfter(t: Table, bound: int, id: nat) {
    id in t && id > bound && forall other | other in t :: other > bound ==> id <= other
  }

  /** The daemon walks its table in the order of the ids: the first entry after the bound, or nothing. */
  ghost predicate RepliesAfter(t: Table, bound: int, reply: string) {
    if NoneAfter(t, bound) then reply == ""
    else exists id :: IsFirstAfter(t, bound, id) && reply == BlockReply(id, t[id])
  }

  predicate NoneAfter(t: Table, bound: int) {
    forall id | id in t :: id <= bound
  }

  /** The documented answers to the two commands of a walk. NEXT on an id that has been dropped answers
      empty, like the end of the table. */
  ghost predicate RepliesTo(c: Cursor, t: Table, command: string, reply: string) {
    && (command == FirstCommand(c) ==> RepliesAfter(t, -1, reply))
    && (forall id: nat :: RepliesToNext(c, t, command, reply, id))
  }

  ghost predicate RepliesToNext(c: Cursor, t: Table, command: string, reply: string, id: nat) {
    command == NextCommand(c, IntText(id)) ==> if id in t then RepliesAfter(t, id, reply) else reply == ""
  }

  /** The table at the time of each round trip, and the reply it gave. Between two round trips entries may
      have come and gone at will. */
  ghost predicate Served(c: Cursor, tables: seq<Table>, exchanges: seq<Exchange>) {
    |tables| == |exchanges| && forall i | 0 <= i < |tables| :: ServedAt(c, tables, exchanges, i)
  }

  ghost predicate ServedAt(c: Cursor, tables: seq<Table>, exchanges: seq<Exchange>, i: nat)
    requires i < |tables| && i < |exchanges|
  {
    CleanTable(tables[i]) && RepliesTo(c, tables[i], exchanges[i].command, exchanges[i].reply)
  }

  /** The commands of a walk say unambiguously what they ask for. */
  lemma CommandsAreUnambiguous(c: Cursor, i: nat, j: nat)
    requires c.BssCursor?
    ensures FirstCommand(c) != NextCommand(c, IntText(i))
    ensures NextCommand(c, IntText(i)) == NextCommand(c, IntText(j)) ==> i == j
  {
    var mask, a, b := MaskText(c.mask), IntText(i), IntText(j);
    var ca, cb := "BSS NEXT-" + a + mask, "BSS NEXT-" + b + mask;
    assert FirstCommand(c)[4] == 'F' && ca[4] == 'N';
    if ca == cb {
      assert |a| == |b| && a == ca[9..9 + |a|] == cb[9..9 + |b|] == b;
      IntTextInjective(i, j);
    }
  }

  // ----- what one reply tells the client

  lemma FirstField(key: string, value: string, rest: string)
    requires '=' !in key && OneLine(key) && OneLine(value) && key !in Variables(rest)
    ensures key in Variables(key + "=" + value) && Variables(key + "=" + value)[key] == value
    ensures var m := Variables(key + "=" + value + "\n" + rest); key in m && m[key] == value
  {
    LastBlockField("", key, value);
    BlockField("", key, value, rest);
    assert "" + (key + "=" + value) == key + "=" + value;
    assert "" + (key + "=" + value + "\n" + rest) == key + "=" + value + "\n" + rest;
  }

  lemma IdKey(key: string)
    requires key == "id"
    ensures '=' !in key && OneLine(key) && key + "=" == "id="
  {
  }

  lemma EntryOfBlock(c: Cursor, id: nat, rest: string)
    requires c.BssCursor? && "id" !in Variables(rest)
    ensures EntryOf(c, BlockReply(id, rest)).Some?
    ensures EntryOf(c, BlockReply(id, rest)).value.key == IntText(id)
  {
    IdKey("id");
    FirstField("id", IntText(id), rest);
  }

  lemma EntryOfNothing(c: Cursor)
    requires c.BssCursor?
    ensures EntryOf(c, "") == None
  {
    assert Variables("") == map[];
  }

  /** An entry named after a bound is the first of the table after it; no entry, that there is none. */
  lemma ReplyAfter(c: Cursor, t: Table, bound: int, reply: string) returns (id: nat)
    requires c.BssCursor? && CleanTable(t) && RepliesAfter(t, bound, reply)
    ensures EntryOf(c, reply).Some? ==> IsFirstAfter(t, bound, id) && EntryOf(c, reply).value.key == IntText(id)
    ensures EntryOf(c, reply).None? ==> NoneAfter(t, bound)
  {
    if NoneAfter(t, bound) {
      EntryOfNothing(c);
      id := 0;
    } else {
      id :| IsFirstAfter(t, bound, id) && reply == BlockReply(id, t[id]);
      EntryOfBlock(c, id, t[id]);
    }
  }

  // ----- whole walks

  function BoundAt(ids: seq<nat>, i: nat): int
    requires i <= |ids|
  {
    if i == 0 then -1 else ids[i - 1]
  }

  /** The keys are the ids, printed. */
  predicate KeysAre(keys: seq<string>, ids: seq<nat>) {
    |ids| <= |keys| && forall i | 0 <= i < |ids| :: keys[i] == IntText(ids[i])
  }

  lemma KeysAreMore(keys: seq<string>, ids: seq<nat>, id: nat)
    requires KeysAre(keys, ids) && |ids| < |keys| && keys[|ids|] == IntText(id)
    ensures KeysAre(keys, ids + [id])
  {
  }

  /** The i-th id yielded was the first of its table after the one before, which was still there. */
  predicate ClimbsAt(tables: seq<Table>, ids: seq<nat>, i: nat)
    requires i < |ids| <= |tables|
  {
    IsFirstAfter(tables[i], BoundAt(ids, i), ids[i]) && (i > 0 ==> ids[i - 1] in tables[i])
  }

  ghost predicate Climbs(tables: seq<Table>, ids: seq<nat>) {
    |ids| <= |tables| && forall i | 0 <= i < |ids| :: ClimbsAt(tables, ids, i)
  }

  /** The reply to the command that goes on from the i-th entry. */
  lemma ReplyAt(c: Cursor, tables: seq<Table>, exchanges: seq<Exchange>, keys: seq<string>, ids: seq<nat>)
    returns (id: nat)
    requires c.BssCursor? && Served(c, tables, exchanges) && |ids| < |exchanges|
    requires KeysAre(keys, ids)
    requires exchanges[|ids|].command == CommandAt(c, keys, |ids|)
    ensures var x := exchanges[|ids|]; var t := tables[|ids|]; var bound := BoundAt(ids, |ids|);
      && (EntryOf(c, x.reply).Some? ==>
            IsFirstAfter(t, bound, id) && EntryOf(c, x.reply).value.key == IntText(id)
            && (ids != [] ==> ids[|ids| - 1] in t))
      && (EntryOf(c, x.reply).None? ==> NoneAfter(t, bound) || (ids != [] && ids[|ids| - 1] !in t))
  {
    var k := |ids|;
    assert ServedAt(c, tables, exchanges, k);
    assert k > 0 ==> RepliesToNext(c, tables[k], exchanges[k].command, exchanges[k].reply, ids[k - 1]);
    if k > 0 && ids[k - 1] !in tables[k] {
      EntryOfNothing(c);
      id := 0;
    } else {
      id := ReplyAfter(c, tables[k], BoundAt(ids, k), exchanges[k].reply);
    }
  }

  lemma EntryRead(c: Cursor, exchanges: seq<Exchange>, entries: seq<Entry>, finished: bool, i: nat)
    requires WalkOf(c, exchanges, entries, finished) && AllRead(c, exchanges) && i < |entries|
    ensures EntryOf(c, exchanges[i].reply) == Some(entries[i]) && entries[i].key == KeysOf(entries)[i]
    ensures exchanges[i].command == CommandAt(c, KeysOf(entries), i)
  {
    assert Read(c, exchanges[i]) && SentAt(c, exchanges, entries, i) && YieldedAt(exchanges, entries, i);
  }

  lemma ClimbOne(c: Cursor, tables: seq<Table>, exchanges: seq<Exchange>, entries: seq<Entry>,
                 finished: bool, earlier: seq<nat>) returns (ids: seq<nat>)
    requires c.BssCursor? && WalkOf(c, exchanges, entries, finished) && AllRead(c, exchanges)
    requires Served(c, tables, exchanges) && |earlier| < |entries|
    requires Climbs(tables, earlier) && KeysAre(KeysOf(entries), earlier)
    ensures |ids| == |earlier| + 1 && Climbs(tables, ids) && KeysAre(KeysOf(entries), ids)
  {
    assert SentAt(c, exchanges, entries, |earlier|);
    var id := ReplyAt(c, tables, exchanges, KeysOf(entries), earlier);
    EntryRead(c, exchanges, entries, finished, |earlier|);
    ids := earlier + [id];
    ClimbsMore(tables, earlier, id);
    KeysAreMore(KeysOf(entries), earlier, id);
  }

  /** A walk climbs: the ids of what it yields rise strictly, whatever happens to the table meanwhile. */
  lemma {:induction false} WalkClimbs(c: Cursor, tables: seq<Table>, exchanges: seq<Exchange>,
                                      entries: seq<Entry>, finished: bool, n: nat) returns (ids: seq<nat>)
    requires c.BssCursor? && WalkOf(c, exchanges, entries, finished) && AllRead(c, exchanges)
    requires Served(c, tables, exchanges) && n <= |entries|
    ensures |ids| == n && Climbs(tables, ids) && KeysAre(KeysOf(entries), ids)
  {
    if n == 0 {
      ids := [];
    } else {
      ids := WalkClimbs(c, tables, exchanges, entries, finished, n - 1);
      ids := ClimbOne(c, tables, exchanges, entries, finished, ids);
    }
  }

  predicate Increasing(ids: seq<nat>) {
    forall i, j | 0 <= i < j < |ids| :: ids[i] < ids[j]
  }

  lemma ClimbIncreases(tables: seq<Table>, ids: seq<nat>)
    requires Climbs(tables, ids)
    ensures Increasing(ids)
  {
    forall i, j | 0 <= i < j < |ids| ensures ids[i] < ids[j] {
      Rising(tables, ids, i, j);
    }
  }

  lemma ClimbsMore(tables: seq<Table>, ids: seq<nat>, id: nat)
    requires Climbs(tables, ids) && |ids| < |tables|
    requires IsFirstAfter(tables[|ids|], BoundAt(ids, |ids|), id)
    requires ids != [] ==> ids[|ids| - 1] in tables[|ids|]
    ensures Climbs(tables, ids + [id])
  {
    var more := ids + [id];
    forall i | 0 <= i < |more| ensures ClimbsAt(tables, more, i) {
      assert BoundAt(more, i) == BoundAt(ids, i);
      if i < |ids| {
        assert ClimbsAt(tables, ids, i);
      }
    }
  }

  lemma {:induction false} Rising(tables: seq<Table>, ids: seq<nat>, i: nat, j: nat)
    requires Climbs(tables, ids) && i < j < |ids|
    ensures ids[i] < ids[j]
    decreases j
  {
    assert ClimbsAt(tables, ids, j);
    if i < j - 1 {
      Rising(tables, ids, i, j - 1);
    }
  }

  /** An entry in the table from round trip j to round trip k, above what was yielded before j and not above
      what k yielded, was yielded in between. */
  lemma {:induction false} NotMissed(tables: seq<Table>, ids: seq<nat>, j: nat, k: nat, id: nat)
    requires Climbs(tables, ids) && j <= k < |ids|
    requires forall i | j <= i <= k :: id in tables[i]
    requires BoundAt(ids, j) < id <= ids[k]
    ensures id in ids
    decreases k
  {
    assert ClimbsAt(tables, ids, k);
    if k > j && id <= ids[k - 1] {
      NotMissed(tables, ids, j, k - 1, id);
    } else {
      assert ids[k] == id;
    }
  }

  /** Ids are given out fresh and rising: what is new in a table is above all that was in any before it. */
  ghost predicate FreshIds(tables: seq<Table>) {
    forall j | 0 < j < |tables| :: FreshAt(tables, j)
  }

  ghost predicate FreshAt(tables: seq<Table>, j: nat)
    requires 0 < j < |tables|
  {
    forall id, i, other |
      id in tables[j] && id !in tables[j - 1] && 0 <= i < j && other in tables[i] :: other < id
  }

  /** The round trip from which on an entry of the table of round trip k has been there. */
  lemma {:induction false} Since(tables: seq<Table>, k: nat, id: nat) returns (j: nat)
    requires k < |tables| && id in tables[k]
    ensures j <= k && (forall i | j <= i <= k :: id in tables[i])
    ensures j > 0 ==> id !in tables[j - 1]
  {
    if k == 0 || id !in tables[k - 1] {
      j := k;
    } else {
      j := Since(tables, k - 1, id);
    }
  }

  /** With fresh ids nothing at or below the cursor is missed: what the last table still holds of that was
      yielded. */
  lemma BelowCursor(tables: seq<Table>, ids: seq<nat>, id: nat)
    requires Climbs(tables, ids) && FreshIds(tables) && ids != []
    requires |ids| < |tables| && id in tables[|ids|] && id <= ids[|ids| - 1]
    ensures id in ids
  {
    var m := |ids|;
    var j := Since(tables, m, id);
    if j > 0 {
      assert ClimbsAt(tables, ids, j - 1);
      assert ids[j - 1] in tables[j - 1] && id !in tables[j - 1] && id in tables[j];
      assert FreshAt(tables, j);
      assert ids[j - 1] < id;
    }
    if j < m {
      NotMissed(tables, ids, j, m - 1, id);
    }
  }

  /** The table has nothing above the last id yielded, or has lost that one. */
  ghost predicate AtEnd(tables: seq<Table>, ids: seq<nat>) {
    |ids| < |tables|
    && (NoneAfter(tables[|ids|], BoundAt(ids, |ids|)) || (ids != [] && ids[|ids| - 1] !in tables[|ids|]))
  }

  /** The end of a finished walk: the table had nothing above the last entry yielded, or had lost it. */
  lemma WalkEndsAt(c: Cursor, tables: seq<Table>, exchanges: seq<Exchange>, entries: seq<Entry>)
    returns (ids: seq<nat>)
    requires c.BssCursor? && WalkOf(c, exchanges, entries, true) && AllRead(c, exchanges)
    requires Served(c, tables, exchanges)
    ensures |ids| == |entries| && KeysAre(KeysOf(entries), ids) && Climbs(tables, ids) && AtEnd(tables, ids)
  {
    var n := |entries|;
    ids := WalkClimbs(c, tables, exchanges, entries, true, n);
    assert SentAt(c, exchanges, entries, n);
    var id := ReplyAt(c, tables, exchanges, KeysOf(entries), ids);
    assert Read(c, exchanges[n]);
    assert exchanges[n].entry.Some? ==> IntText(id) in KeysOf(entries);
    NotAgain(tables, ids, KeysOf(entries), id);
  }

  /** What is above all that was yielded was not yielded under any key. */
  lemma NotAgain(tables: seq<Table>, ids: seq<nat>, keys: seq<string>, id: nat)
    requires Climbs(tables, ids) && |keys| == |ids| && KeysAre(keys, ids)
    ensures id > BoundAt(ids, |ids|) ==> IntText(id) !in keys
  {
    forall i | 0 <= i < |ids| && keys[i] == IntText(id)
      ensures id <= BoundAt(ids, |ids|)
    {
      IntTextInjective(id, ids[i]);
      if i < |ids| - 1 {
        Rising(tables, ids, i, |ids| - 1);
      }
    }
  }

  lemma ThroughoutClimb(tables: seq<Table>, ids: seq<nat>, id: nat)
    requires Climbs(tables, ids) && AtEnd(tables, ids)
    requires forall i | 0 <= i < |tables| :: id in tables[i]
    ensures id <= BoundAt(ids, |ids|) ==> id in ids
    ensures ids == [] || ids[|ids| - 1] in tables[|ids|] ==> id in ids
  {
    var n := |ids|;
    assert id in tables[n];
    if id <= BoundAt(ids, n) {
      NotMissed(tables, ids, 0, n - 1, id);
    }
  }

  /** Whatever came and went, a finished walk yields ids in strictly rising order, and what was in every
      table and is not above the last one yielded was yielded: everything that was in every table, when
      the last entry yielded was still there at the end. */
  lemma ThroughoutIsYielded(c: Cursor, tables: seq<Table>, exchanges: seq<Exchange>, entries: seq<Entry>,
                            id: nat) returns (ids: seq<nat>)
    requires c.BssCursor? && WalkOf(c, exchanges, entries, true) && AllRead(c, exchanges)
    requires Served(c, tables, exchanges)
    requires forall i | 0 <= i < |tables| :: id in tables[i]
    ensures |ids| == |entries| && KeysAre(KeysOf(entries), ids) && Increasing(ids)
    ensures id <= BoundAt(ids, |ids|) ==> id in ids
    ensures ids == [] || ids[|ids| - 1] in tables[|ids|] ==> id in ids
  {
    ids := WalkEndsAt(c, tables, exchanges, entries);
    ClimbIncreases(tables, ids);
    ThroughoutClimb(tables, ids, id);
  }

  /** What the table of the end holds and the walk did not yield: exactly what is above the cursor. */
  ghost predicate OnlyTailMissing(t: Table, ids: seq<nat>) {
    forall id | id in t :: id in ids <==> id <= BoundAt(ids, |ids|)
  }

  lemma TailOfClimb(tables: seq<Table>, ids: seq<nat>)
    requires Climbs(tables, ids) && FreshIds(tables) && |ids| < |tables|
    ensures OnlyTailMissing(tables[|ids|], ids)
  {
    var n := |ids|;
    forall id | id in tables[n]
      ensures id in ids <==> id <= BoundAt(ids, n)
    {
      if id in ids {
        var i :| 0 <= i < n && ids[i] == id;
        if i < n - 1 {
          Rising(tables, ids, i, n - 1);
        }
      } else if n > 0 && id <= ids[n - 1] {
        BelowCursor(tables, ids, id);
      }
    }
  }

  /** With fresh ids a finished walk has yielded all that the table holds when it ends, except for what is
      above the last entry yielded; and there is nothing above it unless that entry is gone. So only the
      expiry of the cursor costs anything, and what it costs is the tail. */
  lemma OnlyTheTailIsLost(c: Cursor, tables: seq<Table>, exchanges: seq<Exchange>, entries: seq<Entry>)
    returns (ids: seq<nat>)
    requires c.BssCursor? && WalkOf(c, exchanges, entries, true) && AllRead(c, exchanges)
    requires Served(c, tables, exchanges) && FreshIds(tables)
    ensures |ids| == |entries| && KeysAre(KeysOf(entries), ids) && Increasing(ids)
    ensures OnlyTailMissing(tables[|ids|], ids)
    ensures ids == [] || ids[|ids| - 1] in tables[|ids|] ==> forall id | id in tables[|ids|] :: id in ids
  {
    ids := WalkEndsAt(c, tables, exchanges, entries);
    ClimbIncreases(tables, ids);
    TailOfClimb(tables, ids);
  }
}
