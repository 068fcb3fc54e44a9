/** Walks on a connection: what they are proved to yield rests on what the daemon answers to each command, and
    on nothing else. */
module Serving {
  import opened Client
  import opened Connection
  import opened Places
  import opened Text
  import B = BssWalk
  import E = WalkEntries
  import N = NetworkWalk
  import R = Replies
  import W = Walks

  // ----- tables by number

  /** The tables at the times of the round trips, out of one for each command of the session. */
  function TablesAt<T>(places: seq<Place>, tables: seq<T>): (at: seq<T>)
    requires forall p | p in places :: StateAfter(p.before).Some? && Start(p).sent < |tables|
    ensures |at| == |places|
    ensures forall i | 0 <= i < |places| :: at[i] == tables[Start(places[i]).sent]
  {
    if places == [] then []
    else
      var last := places[|places| - 1];
      assert last in places;
      TablesAt(places[..|places| - 1], tables) + [tables[Start(last).sent]]
  }

  lemma NumbersInRange<T>(places: seq<Place>, log: seq<Action>, answers: Answers, tables: seq<T>, last: nat)
    requires Undisturbed(places, log, answers) && |places| == last + 1 && |CommandsTo(places[last])| <= |tables|
    ensures forall p | p in places :: StateAfter(p.before).Some? && Start(p).sent < |tables|
  {
    forall p | p in places ensures StateAfter(p.before).Some? && Start(p).sent < |tables| {
      var i :| 0 <= i < |places| && places[i] == p;
      CommandOfPlace(places, log, answers, i, last);
    }
  }

  // ----- iter_bss

  /** The daemon's part: to each command of the session that belongs to the walk, its answer is the one its
      table at the time asks for. */
  ghost predicate AnswersBssWalk(c: W.Cursor, commands: seq<string>, answers: Answers, tables: seq<B.Table>) {
    |commands| <= |tables|
    && forall n | 0 <= n < |commands| && n < |answers.texts| :: AnswersBss(c, commands, answers, tables, n)
  }

  ghost predicate AnswersBss(c: W.Cursor, commands: seq<string>, answers: Answers, tables: seq<B.Table>, n: nat)
    requires n < |commands| && n < |answers.texts| && n < |tables|
  {
    B.CleanTable(tables[n]) && B.RepliesTo(c, tables[n], commands[n], AnswerText(answers, n))
  }

  lemma BssServedAt(c: W.Cursor, exchanges: seq<W.Exchange>, places: seq<Place>, log: seq<Action>,
                    answers: Answers, tables: seq<B.Table>, i: nat, last: nat)
    requires W.Placed(exchanges, places, log) && Undisturbed(places, log, answers) && i <= last < |places|
    requires AnswersBssWalk(c, CommandsTo(places[last]), answers, tables)
    ensures StateAfter(places[i].before).Some? && Start(places[i]).sent < |tables|
    ensures var t := tables[Start(places[i]).sent];
      B.CleanTable(t) && B.RepliesTo(c, t, exchanges[i].command, exchanges[i].reply)
  {
    PlaceAt(places, log, answers, i);
    RoundTripAt(places, log, answers, i, last);
    assert AnswersBss(c, CommandsTo(places[last]), answers, tables, Start(places[i]).sent);
    assert W.MadeAt(exchanges[i], places[i]);
  }

  /** So the walk was served. */
  lemma BssIsServed(c: W.Cursor, exchanges: seq<W.Exchange>, places: seq<Place>, log: seq<Action>,
                    answers: Answers, tables: seq<B.Table>, last: nat)
    returns (at: seq<B.Table>)
    requires W.Placed(exchanges, places, log) && Undisturbed(places, log, answers) && |places| == last + 1
    requires AnswersBssWalk(c, CommandsTo(places[last]), answers, tables)
    ensures forall p | p in places :: StateAfter(p.before).Some? && Start(p).sent < |tables|
    ensures at == TablesAt(places, tables) && B.Served(c, at, exchanges)
  {
    NumbersInRange(places, log, answers, tables, last);
    at := TablesAt(places, tables);
    forall i | 0 <= i < |at| ensures B.ServedAt(c, at, exchanges, i) {
      BssServedAt(c, exchanges, places, log, answers, tables, i, last);
    }
  }

  /** The round trip at which an entry is new: it came into the table after the one before. */
  lemma {:induction false} NewSince(tables: seq<B.Table>, m: nat, k: nat, id: nat) returns (n: nat)
    requires m < k < |tables| && id !in tables[m] && id in tables[k]
    ensures m < n <= k && id in tables[n] && id !in tables[n - 1]
    decreases k
  {
    if id !in tables[k - 1] {
      n := k;
    } else {
      n := NewSince(tables, m, k - 1, id);
    }
  }

  predicate PickAt<T(==)>(tables: seq<T>, numbers: seq<nat>, at: seq<T>, i: nat)
    requires i < |numbers| && i < |at|
  {
    numbers[i] < |tables| && at[i] == tables[numbers[i]]
  }

  /** The tables at are those with the numbers. */
  predicate Picks<T(==)>(tables: seq<T>, numbers: seq<nat>, at: seq<T>) {
    |at| == |numbers| && forall i | 0 <= i < |numbers| :: PickAt(tables, numbers, at, i)
  }

  /** Ids that are fresh from command to command are fresh from round trip to round trip. */
  lemma FreshAlong(tables: seq<B.Table>, numbers: seq<nat>, at: seq<B.Table>)
    requires B.FreshIds(tables) && Picks(tables, numbers, at) && Rising(numbers)
    ensures B.FreshIds(at)
  {
    forall j | 0 < j < |at| ensures B.FreshAt(at, j) {
      forall id, i, other | id in at[j] && id !in at[j - 1] && 0 <= i < j && other in at[i]
        ensures other < id
      {
        assert PickAt(tables, numbers, at, j) && PickAt(tables, numbers, at, j - 1) && PickAt(tables, numbers, at, i);
        var n := NewSince(tables, numbers[j - 1], numbers[j], id);
        assert B.FreshAt(tables, n);
        assert i < j - 1 ==> numbers[i] < numbers[j - 1];
        assert other in tables[numbers[i]] && numbers[i] < n;
      }
    }
  }

  /** The numbers of the commands at the places. */
  function Numbers(places: seq<Place>): (numbers: seq<nat>)
    requires forall p | p in places :: StateAfter(p.before).Some?
    ensures |numbers| == |places|
    ensures forall i | 0 <= i < |places| :: numbers[i] == Start(places[i]).sent
  {
    if places == [] then []
    else
      var last := places[|places| - 1];
      assert last in places;
      Numbers(places[..|places| - 1]) + [Start(last).sent]
  }

  predicate Rising(numbers: seq<nat>) {
    forall i, j | 0 <= i < j < |numbers| :: numbers[i] < numbers[j]
  }

  lemma NumbersAreRising(places: seq<Place>, log: seq<Action>, answers: Answers)
    requires Undisturbed(places, log, answers) && forall p | p in places :: StateAfter(p.before).Some?
    ensures Rising(Numbers(places))
  {
    forall i, j | 0 <= i < j < |places| ensures Numbers(places)[i] < Numbers(places)[j] {
      NumbersRise(places, log, answers, i, j);
    }
  }

  lemma TablesOfNumbers<T>(places: seq<Place>, tables: seq<T>)
    requires forall p | p in places :: StateAfter(p.before).Some? && Start(p).sent < |tables|
    ensures Picks(tables, Numbers(places), TablesAt(places, tables))
  {
    forall i | 0 <= i < |places| ensures PickAt(tables, Numbers(places), TablesAt(places, tables), i) {
      assert places[i] in places;
    }
  }

  lemma FreshAtPlaces(places: seq<Place>, log: seq<Action>, answers: Answers, tables: seq<B.Table>)
    requires Undisturbed(places, log, answers) && B.FreshIds(tables)
    requires forall p | p in places :: StateAfter(p.before).Some? && Start(p).sent < |tables|
    ensures B.FreshIds(TablesAt(places, tables))
  {
    NumbersAreRising(places, log, answers);
    TablesOfNumbers(places, tables);
    FreshAlong(tables, Numbers(places), TablesAt(places, tables));
  }

  lemma LastTable<T>(places: seq<Place>, tables: seq<T>, n: nat)
    requires forall p | p in places :: StateAfter(p.before).Some? && Start(p).sent < |tables|
    requires n < |places|
    ensures StateAfter(places[n].before).Some? && Start(places[n]).sent < |tables|
    ensures TablesAt(places, tables)[n] == tables[Start(places[n]).sent]
  {
    assert places[n] in places;
  }

  /** iter_bss on a connection: with a daemon that answers in order and as its table asks, ids fresh and
      rising, and no request given up on, a finished walk has yielded in rising order all that the table held
      at the last command, except for what is above the last entry yielded; and nothing is, unless that entry
      has expired. */
  lemma BssWalkOnConnection(w: W.KeyedWalk, answers: Answers, tables: seq<B.Table>)
    returns (ids: seq<nat>, t: B.Table)
    requires w.Valid() && w.cursor.BssCursor? && w.finished && Undisturbed(w.places, w.client.log, answers)
    requires AnswersBssWalk(w.cursor, CommandsTo(w.places[|w.entries|]), answers, tables) && B.FreshIds(tables)
    ensures |w.places| == |w.entries| + 1 && StateAfter(w.places[|w.entries|].before).Some?
    ensures Start(w.places[|w.entries|]).sent < |tables| && t == tables[Start(w.places[|w.entries|]).sent]
    ensures |ids| == |w.entries| && B.KeysAre(W.KeysOf(w.entries), ids) && B.Increasing(ids)
    ensures B.OnlyTailMissing(t, ids)
    ensures ids == [] || ids[|ids| - 1] in t ==> forall id | id in t :: id in ids
  {
    var at := BssIsServed(w.cursor, w.exchanges, w.places, w.client.log, answers, tables, |w.entries|);
    FreshAtPlaces(w.places, w.client.log, answers, tables);
    ids := B.OnlyTheTailIsLost(w.cursor, at, w.exchanges, w.entries);
    LastTable(w.places, tables, |w.entries|);
    t := at[|ids|];
  }

  lemma SameBlock(e: W.Entry, t: B.Table, id: nat, other: nat)
    requires E.IsBlock(e, t, other) && e.key == IntText(id)
    ensures E.IsBlock(e, t, id)
  {
    IntTextInjective(id, other);
  }

  /** And each entry it yielded is the block of its id, all of it, in the table at its command: of a walk not
      yet finished as well, and whether ids are fresh or not. */
  lemma BssEntriesOnConnection(w: W.KeyedWalk, answers: Answers, tables: seq<B.Table>, ids: seq<nat>)
    requires w.Valid() && w.cursor.BssCursor? && w.places != [] && Undisturbed(w.places, w.client.log, answers)
    requires AnswersBssWalk(w.cursor, CommandsTo(w.places[|w.places| - 1]), answers, tables)
    requires |ids| == |w.entries| && B.KeysAre(W.KeysOf(w.entries), ids)
    ensures |w.entries| <= |w.places|
    ensures forall p | p in w.places :: StateAfter(p.before).Some? && Start(p).sent < |tables|
    ensures forall i | 0 <= i < |ids| :: E.IsBlock(w.entries[i], TablesAt(w.places, tables)[i], ids[i])
  {
    var at := BssIsServed(w.cursor, w.exchanges, w.places, w.client.log, answers, tables, |w.places| - 1);
    var others := E.EntriesAreBlocks(w.cursor, at, w.exchanges, w.entries, w.finished);
    forall i | 0 <= i < |ids| ensures E.IsBlock(w.entries[i], at[i], ids[i]) {
      SameBlock(w.entries[i], at[i], ids[i], others[i]);
    }
  }

  // ----- iter_networks

  ghost predicate AnswersNetworkWalk(header: string, commands: seq<string>, answers: Answers,
                                     tables: seq<N.Table>) {
    && header != "" && OneLine(header) && |commands| <= |tables|
    && forall n | 0 <= n < |commands| && n < |answers.texts| :: AnswersNetworks(header, commands, answers, tables, n)
  }

  ghost predicate AnswersNetworks(header: string, commands: seq<string>, answers: Answers,
                                  tables: seq<N.Table>, n: nat)
    requires n < |commands| && n < |answers.texts| && n < |tables|
  {
    N.CleanTable(tables[n]) && N.RepliesTo(header, tables[n], commands[n], AnswerText(answers, n))
  }

  lemma NetworksServedAt(header: string, exchanges: seq<N.PageExchange>, places: seq<Place>, log: seq<Action>,
                         answers: Answers, tables: seq<N.Table>, i: nat, last: nat)
    requires N.Placed(exchanges, places, log) && Undisturbed(places, log, answers) && i <= last < |places|
    requires AnswersNetworkWalk(header, CommandsTo(places[last]), answers, tables)
    ensures StateAfter(places[i].before).Some? && Start(places[i]).sent < |tables|
    ensures var t := tables[Start(places[i]).sent];
      N.CleanTable(t) && N.RepliesTo(header, t, exchanges[i].command, exchanges[i].reply)
  {
    PlaceAt(places, log, answers, i);
    RoundTripAt(places, log, answers, i, last);
    assert AnswersNetworks(header, CommandsTo(places[last]), answers, tables, Start(places[i]).sent);
    assert N.MadeAt(exchanges[i], places[i]);
  }

  lemma NetworksAreServed(header: string, exchanges: seq<N.PageExchange>, places: seq<Place>,
                          log: seq<Action>, answers: Answers, tables: seq<N.Table>, last: nat)
    returns (at: seq<N.Table>)
    requires N.Placed(exchanges, places, log) && Undisturbed(places, log, answers) && |places| == last + 1
    requires AnswersNetworkWalk(header, CommandsTo(places[last]), answers, tables)
    ensures forall p | p in places :: StateAfter(p.before).Some? && Start(p).sent < |tables|
    ensures at == TablesAt(places, tables) && N.Served(header, at, exchanges)
  {
    NumbersInRange(places, log, answers, tables, last);
    at := TablesAt(places, tables);
    forall i | 0 <= i < |at| ensures N.ServedAt(header, at, exchanges, i) {
      NetworksServedAt(header, exchanges, places, log, answers, tables, i, last);
    }
  }

  lemma AllYielded(w: N.NetworkIterator)
    requires w.Accounts() && w.finished
    ensures N.WalkOf(w.exchanges, w.Pages(), true) && N.AllRead(w.exchanges) && w.yielded == N.Flat(w.Pages())
  {
    N.AllYielded(w.earlier, w.page);
    assert w.page[..w.position] == w.page;
  }

  predicate InAll(tables: seq<N.Table>, id: nat) {
    forall i | 0 <= i < |tables| :: id in tables[i]
  }

  lemma YieldsWhatIsInAll(header: string, at: seq<N.Table>, exchanges: seq<N.PageExchange>,
                          pages: seq<seq<R.Network>>, id: nat)
    requires N.WalkOf(exchanges, pages, true) && N.AllRead(exchanges) && N.Served(header, at, exchanges)
    requires InAll(at, id)
    ensures N.RisingIds(N.Flat(pages)) && id in N.IdsOf(N.Flat(pages))
  {
    N.FinishedWalkMissesNothing(header, at, exchanges, pages, 0, id);
  }

  lemma InAllPlaces(places: seq<Place>, tables: seq<N.Table>, id: nat)
    requires forall p | p in places :: StateAfter(p.before).Some? && Start(p).sent < |tables|
    requires InAll(tables, id)
    ensures InAll(TablesAt(places, tables), id)
  {
    TablesOfNumbers(places, tables);
    forall i | 0 <= i < |places| ensures id in TablesAt(places, tables)[i] {
      assert PickAt(tables, Numbers(places), TablesAt(places, tables), i);
    }
  }

  /** iter_networks on a connection: with a daemon that answers in order and as its list asks, and no request
      given up on, a finished walk has yielded in strictly rising order every network that was configured
      throughout. */
  lemma NetworkWalkOnConnection(w: N.NetworkIterator, header: string, answers: Answers, tables: seq<N.Table>,
                                id: nat)
    requires w.Valid() && w.finished && Undisturbed(w.places, w.client.log, answers)
    requires AnswersNetworkWalk(header, CommandsTo(w.places[|w.Pages()|]), answers, tables) && InAll(tables, id)
    ensures N.RisingIds(w.yielded) && id in N.IdsOf(w.yielded)
  {
    var at := NetworksAreServed(header, w.exchanges, w.places, w.client.log, answers, tables, |w.Pages()|);
    InAllPlaces(w.places, tables, id);
    AllYielded(w);
    YieldsWhatIsInAll(header, at, w.exchanges, w.Pages(), id);
  }
}
