/** The places of a walk's requests in the log of its client: with a daemon that answers each command once and
    in order, and no request given up on, each carries the answer to its own command. */
module Places {
  import opened Client
  import opened Connection
  import opened Text
  import opened Wrappers

  // ----- the commands of a session

  /** The commands sent since the connection was last opened. */
  function SentIn(log: seq<Action>): seq<string> {
    if log == [] then [] else SentWith(SentIn(log[..|log| - 1]), log[|log| - 1])
  }

  /** One step more: opening and closing begin the account anew. */
  function SentWith(commands: seq<string>, a: Action): seq<string> {
    if a == Opened || a == ClosedDown then [] else if a.Sent? then commands + [a.command] else commands
  }

  lemma SentInMore(log: seq<Action>, a: Action)
    ensures SentIn(log + [a]) == SentWith(SentIn(log), a)
  {
    assert (log + [a])[..|log|] == log;
  }

  lemma {:induction false} SentInIsSent(log: seq<Action>, s: State)
    requires StateAfter(log) == Some(s)
    ensures |SentIn(log)| == s.sent
  {
    if log != [] {
      SentInIsSent(log[..|log| - 1], StateAfter(log[..|log| - 1]).value);
    }
  }

  /** A later point of the same session, the connection still open: every account has only grown. */
  predicate Later(s: State, t: State) {
    s.connected && s.sent <= t.sent && s.gaveUp <= t.gaveUp && s.discarded <= t.discarded
  }

  lemma SessionStep(r: State, a: Action, t: State)
    requires Next(r, a) == Some(t)
    ensures r.session <= t.session
    ensures t.session == r.session && t.connected ==> Later(r, t) && a != Opened && a != ClosedDown
  {
  }

  lemma {:induction false} WithinSession(log: seq<Action>, s: State, more: seq<Action>, t: State)
    requires StateAfter(log) == Some(s) && StateAfter(log + more) == Some(t)
    ensures s.session <= t.session
    ensures t.session == s.session && t.connected ==> Later(s, t) && SentIn(log) <= SentIn(log + more)
  {
    if more == [] {
      assert log + more == log;
    } else {
      var n := |more| - 1;
      assert log + more == log + more[..n] + [more[n]];
      BeforeStep(log + more[..n], more[n]);
      var r := StateAfter(log + more[..n]).value;
      SessionStep(r, more[n], t);
      WithinSession(log, s, more[..n], r);
      SentInMore(log + more[..n], more[n]);
    }
  }

  // ----- the places of a walk

  /** The state a request starts from. */
  function Start(p: Place): State
    requires StateAfter(p.before).Some?
  {
    StateAfter(p.before).value
  }

  /** No debt: as many replies thrown away as requests given up on. */
  predicate Settled(s: State) {
    s.gaveUp == s.discarded
  }

  /** The places lie in one session of an honest daemon: no debt at the first, and no request given up on
      from there to the last. */
  ghost predicate Undisturbed(places: seq<Place>, log: seq<Action>, answers: Answers) {
    && StateAfter(log).Some? && Honest(log, answers) && InLog(places, log)
    && (forall p | p in places :: StateAfter(p.before).Some? && Start(p).session == answers.session)
    && (places != [] ==> Settled(Start(places[0]))
                         && Start(places[|places| - 1]).gaveUp == Start(places[0]).gaveUp)
  }

  lemma PrefixOfLog<T>(a: seq<T>, b: seq<T>, log: seq<T>) returns (more: seq<T>)
    requires a <= log && b <= log && |a| <= |b|
    ensures b == a + more
  {
    more := b[|a|..];
    assert a == log[..|a|] && b == log[..|b|];
  }

  /** The run of a place: allowed, honest, and begun on an open connection with no request under way. */
  lemma RunAt(log: seq<Action>, p: Place, answers: Answers)
    requires StateAfter(log).Some? && Honest(log, answers) && Holds(log, p)
    ensures StateAfter(p.Run()).Some? && Honest(p.Run(), answers)
    ensures StateAfter(p.before).Some? && Start(p).connected
    ensures StateAfter(p.before + [Sent(p.command)]).Some?
  {
    var rest := PrefixOfLog(p.Run(), log, log);
    HonestBefore(p.Run(), rest, answers);
    var waited := p.before + [Sent(p.command)] + p.during;
    BeforeStep(waited, Answered(p.datagram));
    DebtWhileWaiting(p.before + [Sent(p.command)], p.during, StateAfter(waited).value);
    BeforeStep(p.before, Sent(p.command));
  }

  /** Between two requests in one session every account has only grown. */
  lemma LaterPlace(log: seq<Action>, p: Place, q: Place, answers: Answers)
    requires StateAfter(log).Some? && Honest(log, answers) && Holds(log, p) && Holds(log, q)
    requires |p.before| <= |q.before|
    ensures StateAfter(p.before).Some? && StateAfter(q.before).Some?
    ensures Start(p).session == Start(q).session ==> Later(Start(p), Start(q))
  {
    RunAt(log, p, answers);
    RunAt(log, q, answers);
    assert p.before <= p.Run() && q.before <= q.Run();
    var more := PrefixOfLog(p.before, q.before, log);
    WithinSession(p.before, Start(p), more, Start(q));
  }

  lemma InOrderOfPlaces(places: seq<Place>, log: seq<Action>, i: nat, j: nat)
    requires InLog(places, log) && i <= j < |places|
    ensures |places[i].before| <= |places[j].before|
    ensures i < j ==> |places[i].before| < |places[j].before|
  {
    if i < j {
      assert Precedes(places[i], places[j]);
    }
  }

  lemma RunsInOrder(places: seq<Place>, log: seq<Action>, i: nat, j: nat)
    requires InLog(places, log) && i <= j < |places|
    ensures |places[i].Run()| <= |places[j].Run()|
  {
    if i < j {
      assert Precedes(places[i], places[j]);
    }
  }

  /** What holds of each place. */
  lemma PlaceAt(places: seq<Place>, log: seq<Action>, answers: Answers, i: nat)
    requires Undisturbed(places, log, answers) && i < |places|
    ensures StateAfter(log).Some? && Honest(log, answers) && Holds(log, places[i])
    ensures StateAfter(places[i].before).Some? && Start(places[i]).session == answers.session
  {
    assert places[i] in places;
  }

  lemma LaterInWalk(places: seq<Place>, log: seq<Action>, answers: Answers, i: nat, j: nat)
    requires Undisturbed(places, log, answers) && i <= j < |places|
    ensures StateAfter(places[i].before).Some? && StateAfter(places[j].before).Some?
    ensures Later(Start(places[i]), Start(places[j]))
  {
    PlaceAt(places, log, answers, i);
    PlaceAt(places, log, answers, j);
    InOrderOfPlaces(places, log, i, j);
    LaterPlace(log, places[i], places[j], answers);
  }

  lemma NoMoreDebt(first: State, s: State, last: State)
    requires Later(first, s) && Later(s, last) && Settled(first) && last.gaveUp == first.gaveUp
    ensures s.gaveUp <= s.discarded
  {
  }

  lemma NoDebtAt(places: seq<Place>, log: seq<Action>, answers: Answers, i: nat)
    requires Undisturbed(places, log, answers) && i < |places|
    ensures StateAfter(places[i].before).Some? && Start(places[i]).gaveUp <= Start(places[i]).discarded
  {
    var n := |places| - 1;
    LaterInWalk(places, log, answers, 0, i);
    LaterInWalk(places, log, answers, i, n);
    NoMoreDebt(Start(places[0]), Start(places[i]), Start(places[n]));
  }

  lemma OwnAnswerOf(log: seq<Action>, p: Place, answers: Answers)
    requires StateAfter(log).Some? && Honest(log, answers) && Holds(log, p)
    requires StateAfter(p.before).Some? && Start(p).session == answers.session
    requires Start(p).gaveUp <= Start(p).discarded
    ensures AnswerAt(answers, Start(p).sent, p.datagram)
  {
    RunAt(log, p, answers);
    ReplyCorrespondence(p.before, Start(p), p.command, p.during, p.datagram, answers);
  }

  /** Each request at these places returned the answer to its own command. */
  lemma OwnAnswerAt(places: seq<Place>, log: seq<Action>, answers: Answers, i: nat)
    requires Undisturbed(places, log, answers) && i < |places|
    ensures AnswerAt(answers, Start(places[i]).sent, places[i].datagram)
  {
    PlaceAt(places, log, answers, i);
    NoDebtAt(places, log, answers, i);
    OwnAnswerOf(log, places[i], answers);
  }

  // ----- the commands by number

  lemma AfterRun(log: seq<Action>, p: Place, answers: Answers)
    requires StateAfter(log).Some? && Honest(log, answers) && Holds(log, p)
    requires StateAfter(p.before).Some?
    ensures StateAfter(p.Run()).Some?
    ensures StateAfter(p.Run()).value.session == Start(p).session && StateAfter(p.Run()).value.connected
  {
    RunAt(log, p, answers);
    var sent := p.before + [Sent(p.command)];
    BeforeStep(p.before, Sent(p.command));
    BeforeStep(sent + p.during, Answered(p.datagram));
    DebtWhileWaiting(sent, p.during, StateAfter(sent + p.during).value);
    RepliesAreAccounted(sent + p.during);
  }

  /** The command of a request is the one its number names among those of the session. */
  lemma CommandAtNumber(log: seq<Action>, p: Place, q: Place, answers: Answers)
    requires StateAfter(log).Some? && Honest(log, answers) && Holds(log, p) && Holds(log, q)
    requires |p.Run()| <= |q.Run()|
    requires StateAfter(p.before).Some? && StateAfter(q.before).Some? && Start(p).session == Start(q).session
    ensures NamedBy(CommandsTo(q), Start(p).sent, p.command)
  {
    RunAt(log, p, answers);
    AfterRun(log, q, answers);
    LastSent(p);
    var more := PrefixOfLog(p.before + [Sent(p.command)], q.Run(), log);
    SentStays(p, q.Run(), more, StateAfter(q.Run()).value);
  }

  lemma LastSent(p: Place)
    requires StateAfter(p.before + [Sent(p.command)]).Some?
    ensures p.before + [Sent(p.command)] <= p.Run()
    ensures StateAfter(p.before).Some?
    ensures NamedBy(SentIn(p.before + [Sent(p.command)]), Start(p).sent, p.command)
  {
    BeforeStep(p.before, Sent(p.command));
    SentInMore(p.before, Sent(p.command));
    SentInIsSent(p.before, Start(p));
  }

  lemma SentStays(p: Place, run: seq<Action>, more: seq<Action>, t: State)
    requires run == p.before + [Sent(p.command)] + more && StateAfter(run) == Some(t) && t.connected
    requires StateAfter(p.before + [Sent(p.command)]).Some? && StateAfter(p.before).Some?
    requires Start(p).session == t.session
    ensures NamedBy(SentIn(run), Start(p).sent, p.command)
  {
    var sent := p.before + [Sent(p.command)];
    BeforeStep(p.before, Sent(p.command));
    WithinSession(sent, StateAfter(sent).value, more, t);
    LastSent(p);
  }

  /** The commands sent in the session, up to the one at the place. */
  function CommandsTo(p: Place): seq<string> {
    SentIn(p.Run())
  }

  lemma TwoPlaces(places: seq<Place>, log: seq<Action>, answers: Answers, i: nat, j: nat)
    requires Undisturbed(places, log, answers) && i <= j < |places|
    ensures StateAfter(log).Some? && Honest(log, answers) && Holds(log, places[i]) && Holds(log, places[j])
    ensures StateAfter(places[i].before).Some? && StateAfter(places[j].before).Some?
    ensures Start(places[i]).session == Start(places[j]).session
    ensures |places[i].Run()| <= |places[j].Run()|
  {
    PlaceAt(places, log, answers, i);
    PlaceAt(places, log, answers, j);
    RunsInOrder(places, log, i, j);
  }

  predicate NamedBy(commands: seq<string>, n: nat, command: string) {
    n < |commands| && commands[n] == command
  }

  lemma CommandOfPlace(places: seq<Place>, log: seq<Action>, answers: Answers, i: nat, j: nat)
    requires Undisturbed(places, log, answers) && i <= j < |places|
    ensures StateAfter(places[i].before).Some?
    ensures NamedBy(CommandsTo(places[j]), Start(places[i]).sent, places[i].command)
  {
    TwoPlaces(places, log, answers, i, j);
    CommandAtNumber(log, places[i], places[j], answers);
  }

  /** What the daemon answers to the command with a number, its line feed stripped as a request does. */
  function AnswerText(answers: Answers, n: nat): string
    requires n < |answers.texts|
  {
    RStrip(answers.texts[n], '\n')
  }

  /** The round trip at each place is the answer, by its number, to the command of that number. */
  lemma RoundTripAt(places: seq<Place>, log: seq<Action>, answers: Answers, i: nat, last: nat)
    requires Undisturbed(places, log, answers) && i <= last < |places|
    ensures StateAfter(places[i].before).Some?
    ensures var n := Start(places[i]).sent;
      && NamedBy(CommandsTo(places[last]), n, places[i].command)
      && n < |answers.texts| && AnswerText(answers, n) == places[i].Reply()
  {
    OwnAnswerAt(places, log, answers, i);
    CommandOfPlace(places, log, answers, i, last);
  }

  lemma NumbersRise(places: seq<Place>, log: seq<Action>, answers: Answers, i: nat, j: nat)
    requires Undisturbed(places, log, answers) && i < j < |places|
    ensures StateAfter(places[i].before).Some? && StateAfter(places[j].before).Some?
    ensures Start(places[i]).sent < Start(places[j]).sent
  {
    PlaceAt(places, log, answers, i);
    PlaceAt(places, log, answers, j);
    assert Precedes(places[i], places[j]);
    SentBetween(log, places[i], places[j], answers);
  }

  lemma SentBetween(log: seq<Action>, p: Place, q: Place, answers: Answers)
    requires StateAfter(log).Some? && Honest(log, answers) && Holds(log, p) && Holds(log, q) && Precedes(p, q)
    requires StateAfter(p.before).Some? && StateAfter(q.before).Some? && Start(p).session == Start(q).session
    ensures Start(p).sent < Start(q).sent
  {
    var sent := p.before + [Sent(p.command)];
    RunAt(log, p, answers);
    RunAt(log, q, answers);
    assert sent <= p.Run() && q.before <= q.Run();
    var more := PrefixOfLog(sent, q.before, log);
    BeforeStep(p.before, Sent(p.command));
    WithinSession(sent, StateAfter(sent).value, more, Start(q));
  }
}
