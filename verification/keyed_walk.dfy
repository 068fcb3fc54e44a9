/** The keyed table walks of wpa_ctrl/client.py - iter_bss, iter_stations and iter_p2p_peers, which differ
    only in what they send and in where a reply names its entry - and what holds of them against any
    daemon. */
module Walks {
  import opened Client
  import opened Connection
  import opened Octets
  import opened Replies
  import opened Transport
  import opened Wrappers

  // ----- what a walk sends and reads

  datatype Cursor = BssCursor(mask: Option<int>) | StationCursor | PeerCursor

  /** The digits of {mask:x}. */
  function HexText(n: nat): string {
    if n < 16 then [HexDigit(n)] else HexText(n / 16) + [HexDigit(n % 16)]
  }

  /** mask | BssMask.ID, the walk being keyed on the id. */
  function WithId(mask: int): (m: int)
    ensures m % 2 == 1 && m / 2 == mask / 2
  {
    if mask % 2 == 1 then mask else mask + 1
  }

  function MaskText(mask: Option<int>): string {
    match mask
    case None => ""
    case Some(m) =>
      var bits := WithId(m);
      " MASK=" + if bits < 0 then "-0x" + HexText(-bits) else "0x" + HexText(bits)
  }

  function FirstCommand(c: Cursor): string {
    match c
    case BssCursor(mask) => "BSS FIRST" + MaskText(mask)
    case StationCursor => "STA-FIRST"
    case PeerCursor => "P2P_PEER FIRST"
  }

  function NextCommand(c: Cursor, key: string): string {
    match c
    case BssCursor(mask) => "BSS NEXT-" + key + MaskText(mask)
    case StationCursor => "STA-NEXT " + key
    case PeerCursor => "P2P_PEER NEXT-" + key
  }

  /** What a walk yields: the key it goes on from, and the variables. */
  datatype Entry = Entry(key: string, variables: map<string, string>)

  /** The entry a reply names: by its id variable, or by the address at its head. */
  function EntryOf(c: Cursor, reply: string): Option<Entry> {
    match c
    case BssCursor(_) =>
      var variables := Variables(reply);
      if "id" in variables then Some(Entry(variables["id"], variables)) else None
    case _ =>
      match AddressedVariables(reply)
      case None => None
      case Some((address, variables)) => Some(Entry(address, variables))
  }

  // ----- the account of a walk

  /** One round trip: what was sent, what the request returned, and the entry that names. */
  datatype Exchange = Exchange(command: string, reply: string, entry: Option<Entry>)

  predicate Read(c: Cursor, x: Exchange) {
    x.entry == EntryOf(c, x.reply)
  }

  predicate AllRead(c: Cursor, exchanges: seq<Exchange>) {
    forall i | 0 <= i < |exchanges| :: Read(c, exchanges[i])
  }

  lemma AllReadMore(c: Cursor, exchanges: seq<Exchange>, x: Exchange)
    requires AllRead(c, exchanges) && Read(c, x)
    ensures AllRead(c, exchanges + [x])
  {
  }

  function CommandAt(c: Cursor, keys: seq<string>, i: nat): string
    requires i <= |keys|
  {
    if i == 0 then FirstCommand(c) else NextCommand(c, keys[i - 1])
  }

  predicate Distinct<T(==)>(s: seq<T>) {
    forall i, j | 0 <= i < j < |s| :: s[i] != s[j]
  }

  /** The exchanges of a walk and the entries it yielded: each command goes on from the entry before, each
      entry is the one its reply names, no key comes twice, and a finished walk ended on a reply that
      names no entry or one already yielded. */
  ghost predicate WalkOf(c: Cursor, exchanges: seq<Exchange>, entries: seq<Entry>, finished: bool) {
    && |exchanges| == |entries| + (if finished then 1 else 0)
    && (forall i | 0 <= i < |exchanges| :: SentAt(c, exchanges, entries, i))
    && (forall i | 0 <= i < |entries| :: YieldedAt(exchanges, entries, i))
    && Distinct(KeysOf(entries))
    && (finished ==> Ends(exchanges[|entries|].entry, KeysOf(entries)))
  }

  predicate SentAt(c: Cursor, exchanges: seq<Exchange>, entries: seq<Entry>, i: nat)
    requires i < |exchanges| && i <= |entries|
  {
    exchanges[i].command == CommandAt(c, KeysOf(entries), i)
  }

  predicate YieldedAt(exchanges: seq<Exchange>, entries: seq<Entry>, i: nat)
    requires i < |exchanges| && i < |entries|
  {
    exchanges[i].entry == Some(entries[i])
  }

  predicate Ends(entry: Option<Entry>, keys: seq<string>) {
    entry.None? || entry.value.key in keys
  }

  function KeysOf(entries: seq<Entry>): (keys: seq<string>)
    ensures |keys| == |entries|
    ensures forall i | 0 <= i < |entries| :: keys[i] == entries[i].key
  {
    if entries == [] then [] else KeysOf(entries[..|entries| - 1]) + [entries[|entries| - 1].key]
  }

  function KeySet(entries: seq<Entry>): set<string> {
    set key | key in KeysOf(entries)
  }

  /** Against any daemon, however broken: if it ever names only keys of a set, the walk sends at most one
      command more than the set has elements, a last one that fails included. */
  lemma CommandsAreBounded(c: Cursor, exchanges: seq<Exchange>, entries: seq<Entry>, finished: bool,
                           failed: bool, named: set<string>)
    requires WalkOf(c, exchanges, entries, finished) && !(finished && failed)
    requires forall i | 0 <= i < |exchanges| :: exchanges[i].entry.Some? ==> exchanges[i].entry.value.key in named
    ensures |entries| <= |named| && |exchanges| + (if failed then 1 else 0) <= |named| + 1
  {
    var keys := KeysOf(entries);
    forall i | 0 <= i < |keys| ensures keys[i] in named {
      assert YieldedAt(exchanges, entries, i);
    }
    DistinctFits(keys, named);
  }

  lemma {:induction false} DistinctFits<T>(s: seq<T>, bound: set<T>)
    requires Distinct(s) && forall i | 0 <= i < |s| :: s[i] in bound
    ensures |s| <= |bound|
  {
    if s != [] {
      var last := s[|s| - 1];
      DistinctFits(s[..|s| - 1], bound - {last});
    }
  }

  lemma KeysOfMore(entries: seq<Entry>, e: Entry)
    ensures KeysOf(entries + [e]) == KeysOf(entries) + [e.key]
  {
    assert (entries + [e])[..|entries|] == entries;
  }

  lemma KeySetOfMore(entries: seq<Entry>, e: Entry)
    ensures KeySet(entries + [e]) == KeySet(entries) + {e.key}
  {
    KeysOfMore(entries, e);
  }

  /** One more round trip: it ends the walk, or it adds an entry. */
  lemma WalkEnds(c: Cursor, exchanges: seq<Exchange>, entries: seq<Entry>, x: Exchange)
    requires WalkOf(c, exchanges, entries, false)
    requires x.command == CommandAt(c, KeysOf(entries), |entries|) && Ends(x.entry, KeysOf(entries))
    ensures WalkOf(c, exchanges + [x], entries, true)
  {
    forall i | 0 <= i < |exchanges| + 1 ensures SentAt(c, exchanges + [x], entries, i) {
      assert i < |exchanges| ==> SentAt(c, exchanges, entries, i);
    }
    forall i | 0 <= i < |entries| ensures YieldedAt(exchanges + [x], entries, i) {
      assert YieldedAt(exchanges, entries, i);
    }
  }

  lemma WalkGrows(c: Cursor, exchanges: seq<Exchange>, entries: seq<Entry>, x: Exchange, e: Entry)
    requires WalkOf(c, exchanges, entries, false)
    requires x.command == CommandAt(c, KeysOf(entries), |entries|)
    requires x.entry == Some(e) && e.key !in KeysOf(entries)
    ensures WalkOf(c, exchanges + [x], entries + [e], false)
  {
    KeysOfMore(entries, e);
    var keys, more := KeysOf(entries), KeysOf(entries + [e]);
    forall i | 0 <= i < |exchanges| + 1
      ensures SentAt(c, exchanges + [x], entries + [e], i) && YieldedAt(exchanges + [x], entries + [e], i)
    {
      assert CommandAt(c, more, i) == CommandAt(c, keys, i);
      assert i < |exchanges| ==> SentAt(c, exchanges, entries, i) && YieldedAt(exchanges, entries, i);
    }
  }

  /** What a generator remembers is the account of its walk so far. */
  ghost predicate AccountOf(c: Cursor, exchanges: seq<Exchange>, entries: seq<Entry>, finished: bool,
                            seen: set<string>, command: string) {
    && WalkOf(c, exchanges, entries, finished)
    && AllRead(c, exchanges)
    && seen == KeySet(entries)
    && (!finished ==> command == CommandAt(c, KeysOf(entries), |entries|))
  }

  lemma AccountEnds(c: Cursor, exchanges: seq<Exchange>, entries: seq<Entry>, seen: set<string>, x: Exchange)
    requires AccountOf(c, exchanges, entries, false, seen, x.command) && Read(c, x)
    requires x.entry.None? || x.entry.value.key in seen
    ensures AccountOf(c, exchanges + [x], entries, true, seen, x.command)
  {
    WalkEnds(c, exchanges, entries, x);
    AllReadMore(c, exchanges, x);
  }

  lemma AccountGrows(c: Cursor, exchanges: seq<Exchange>, entries: seq<Entry>, seen: set<string>,
                     x: Exchange, e: Entry)
    requires AccountOf(c, exchanges, entries, false, seen, x.command) && Read(c, x)
    requires x.entry == Some(e) && e.key !in seen
    ensures AccountOf(c, exchanges + [x], entries + [e], false, seen + {e.key}, NextCommand(c, e.key))
  {
    WalkGrows(c, exchanges, entries, x, e);
    AllReadMore(c, exchanges, x);
    KeysOfMore(entries, e);
    KeySetOfMore(entries, e);
  }

  // ----- the walk itself

  /** The round trips of a walk were requests of its client, at these places of its log. */
  predicate Placed(exchanges: seq<Exchange>, places: seq<Place>, log: seq<Action>) {
    && |places| == |exchanges| && InLog(places, log)
    && (forall i | 0 <= i < |places| :: MadeAt(exchanges[i], places[i]))
  }

  predicate MadeAt(x: Exchange, p: Place) {
    x.command == p.command && x.reply == p.Reply()
  }

  lemma PlacedLonger(exchanges: seq<Exchange>, places: seq<Place>, log: seq<Action>, longer: seq<Action>)
    requires Placed(exchanges, places, log) && log <= longer
    ensures Placed(exchanges, places, longer)
  {
    InLogLonger(places, log, longer);
  }

  lemma PlacedMore(exchanges: seq<Exchange>, places: seq<Place>, log: seq<Action>, x: Exchange, p: Place)
    requires Placed(exchanges, places, log) && log <= p.before && AllWaiting(p.during)
    requires x.command == p.command && x.reply == p.Reply()
    ensures Placed(exchanges + [x], places + [p], p.Run())
  {
    InLogMore(places, log, p);
  }

  /** One of the three generators. Each Next is one resumption: at most one round trip. */
  class KeyedWalk {
    const client: WpaCtrl
    const cursor: Cursor
    var seen: set<string>
    var command: string
    var finished: bool
    var failed: bool
    ghost var exchanges: seq<Exchange>
    ghost var entries: seq<Entry>
    ghost var places: seq<Place>

    ghost predicate Accounts()
      reads this
    {
      AccountOf(cursor, exchanges, entries, finished, seen, command)
    }

    ghost predicate Valid()
      reads this, client, client.transport
    {
      client.Valid() && Accounts() && Placed(exchanges, places, client.log)
    }

    /** Nothing is sent until the first Next. */
    constructor (client: WpaCtrl, cursor: Cursor)
      requires client.Valid()
      ensures Valid() && this.client == client && this.cursor == cursor
      ensures !finished && !failed && exchanges == [] && entries == []
    {
      this.client, this.cursor := client, cursor;
      seen, command, finished, failed := {}, FirstCommand(cursor), false, false;
      exchanges, entries, places := [], [], [];
    }

    /** The next entry; None when the walk is over. An error of the request ends the walk too. */
    method Next()
      returns (r: Result<Option<Entry>>, ghost x: Exchange, ghost p: Place, ghost went: bool)
      requires Valid()
      modifies this, client`events, client`log, client`state, client.transport
      ensures Valid()
      ensures old(finished || failed) ==>
        && r == Ok(None) && finished == old(finished) && failed == old(failed)
        && exchanges == old(exchanges) && entries == old(entries) && client.log == old(client.log)
      ensures !old(finished || failed) ==> match r
        case Ok(Some(entry)) =>
          exchanges == old(exchanges) + [x] && entries == old(entries) + [entry] && !finished && !failed
        case Ok(None) => exchanges == old(exchanges) + [x] && entries == old(entries) && finished && !failed
        case Err(_) => exchanges == old(exchanges) && entries == old(entries) && !finished && failed
      ensures r.Err? ==> places == old(places)
      ensures !old(finished || failed) ==>
        RequestRun(ErrorOf(r), old(client.log), old(client.transport.connected), old(command), p, went, client.log)
      ensures !old(finished || failed) && r.Ok? ==>
        x.command == old(command) && x.reply == p.Reply() && places == old(places) + [p]
      ensures old(finished || failed) ==> client.transport.ticks == old(client.transport.ticks)
      ensures !old(finished || failed) ==>
        InTime(ErrorOf(r), went, old(client.transport.ticks), client.transport.ticks,
               old(client.transport.clock) + client.timeout)
    {
      x, p, went := Exchange("", "", None), Place([], "", [], ""), false;
      if finished || failed {
        return Ok(None), x, p, went;
      }
      r, x, p, went := FetchEntry();
    }

    /** One round trip. */
    method FetchEntry()
      returns (r: Result<Option<Entry>>, ghost x: Exchange, ghost p: Place, ghost went: bool)
      requires Valid() && !finished && !failed
      modifies `seen, `command, `finished, `failed, `exchanges, `entries, `places
      modifies client`events, client`log, client`state, client.transport
      ensures Valid()
      ensures match r
        case Ok(Some(entry)) => entries == old(entries) + [entry] && !finished && !failed
        case Ok(None) => entries == old(entries) && finished && !failed
        case Err(_) => entries == old(entries) && !finished && failed
      ensures r.Err? ==> exchanges == old(exchanges) && places == old(places)
      ensures RequestRun(ErrorOf(r), old(client.log), old(client.transport.connected), old(command), p, went,
                         client.log)
      ensures r.Ok? ==>
        && exchanges == old(exchanges) + [x] && places == old(places) + [p]
        && x.command == old(command) && x.reply == p.Reply()
      ensures InTime(ErrorOf(r), went, old(client.transport.ticks), client.transport.ticks,
                     old(client.transport.clock) + client.timeout)
    {
      x := Exchange("", "", None);
      ghost var log := client.log;
      var got;
      got, p, went := Ask();
      if got.Err? {
        failed := true;
        return Err(got.error), x, p, went;
      }
      var entry;
      entry, x := Settle(got.value, log, p);
      r := Ok(entry);
    }

    /** One request; its reply is still to be taken into the account. */
    method Ask() returns (r: Result<string>, ghost p: Place, ghost went: bool)
      requires client.Valid() && Placed(exchanges, places, client.log)
      modifies client`events, client`log, client`state, client.transport
      ensures client.Valid()
      ensures RequestRun(ErrorOf(r), old(client.log), old(client.transport.connected), command, p, went, client.log)
      ensures if r.Ok? then AllWaiting(p.during) && r.value == p.Reply() else Placed(exchanges, places, client.log)
      ensures InTime(ErrorOf(r), went, old(client.transport.ticks), client.transport.ticks,
                     old(client.transport.clock) + client.timeout)
    {
      ghost var log := client.log;
      r, p, went := client.RequestAt(command);
      if r.Err? {
        PlacedLonger(exchanges, places, log, client.log);
      }
    }

    /** The reply of the request at p is taken into the account. */
    method Settle(reply: string, ghost log: seq<Action>, ghost p: Place)
      returns (next: Option<Entry>, ghost x: Exchange)
      requires Accounts() && !finished && Placed(exchanges, places, log)
      requires log <= p.before && AllWaiting(p.during) && p.command == command && reply == p.Reply()
      modifies `seen, `command, `finished, `exchanges, `entries, `places
      ensures Accounts() && Placed(exchanges, places, p.Run())
      ensures exchanges == old(exchanges) + [x] && places == old(places) + [p]
      ensures x.command == old(command) && x.reply == reply
      ensures match next
        case Some(entry) => entries == old(entries) + [entry] && !finished
        case None => entries == old(entries) && finished
    {
      next, x := Advance(reply);
      PlacedMore(old(exchanges), places, log, x, p);
      places := places + [p];
    }

    /** The walk goes on from a reply, or ends with it. */
    method Advance(reply: string) returns (next: Option<Entry>, ghost x: Exchange)
      requires Accounts() && !finished
      modifies `seen, `command, `finished, `exchanges, `entries
      ensures Accounts() && exchanges == old(exchanges) + [x]
      ensures x.command == old(command) && x.reply == reply
      ensures match next
        case Some(entry) => entries == old(entries) + [entry] && !finished
        case None => entries == old(entries) && finished
    {
      var entry := EntryOf(cursor, reply);
      x := Exchange(command, reply, entry);
      assert Read(cursor, x);
      if entry.None? || entry.value.key in seen {
        Stop(x);
        return None, x;
      }
      GoOn(x, entry.value);
      return entry, x;
    }

    method Stop(ghost x: Exchange)
      requires Accounts() && !finished && Read(cursor, x) && x.command == command
      requires x.entry.None? || x.entry.value.key in seen
      modifies `finished, `exchanges
      ensures Accounts() && finished && exchanges == old(exchanges) + [x]
    {
      AccountEnds(cursor, exchanges, entries, seen, x);
      exchanges, finished := exchanges + [x], true;
    }

    method GoOn(ghost x: Exchange, e: Entry)
      requires Accounts() && !finished && Read(cursor, x) && x.command == command
      requires x.entry == Some(e) && e.key !in seen
      modifies `seen, `command, `exchanges, `entries
      ensures Accounts() && exchanges == old(exchanges) + [x] && entries == old(entries) + [e]
    {
      AccountGrows(cursor, exchanges, entries, seen, x, e);
      exchanges, entries := exchanges + [x], entries + [e];
      seen := seen + {e.key};
      command := NextCommand(cursor, e.key);
    }
  }
}
