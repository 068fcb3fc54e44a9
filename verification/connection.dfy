/** One control connection as a state machine: the steps of wpa_ctrl/client.py's request, next_event,
    open and close over a queue of datagrams, and what holds after every run of those steps. */
module Connection {
  import opened Events
  import opened Text
  import opened Wrappers

  // ----- the steps

  /** What happens on a connection, in the order it happens. */
  datatype Action =
    | Opened
    | ClosedDown
    | Sent(command: string)
    | Arrived(datagram: string)
    | SetAside
    | Answered(datagram: string)
    | GaveUp
    | Discarded
    | TookStored(datagram: string)
    | TookFresh(datagram: string)

  /** The connection, and the account of what passed over it since it was opened. */
  datatype State = State(
    session: nat,
    connected: bool,
    awaiting: bool,
    inbox: seq<string>,
    stored: seq<string>,
    sent: nat,
    answered: nat,
    gaveUp: nat,
    discarded: nat,
    arrived: seq<string>,
    delivered: seq<string>)

  function Fresh(session: nat, connected: bool): State {
    State(session, connected, false, [], [], 0, 0, 0, 0, [], [])
  }

  /** The steps a state allows, and what each does to it. A request and a reading of events are never
      under way together: one connection serves one caller. */
  function Next(s: State, a: Action): Option<State> {
    match a
    case Opened =>
      if s.connected || s.awaiting then None else Some(Fresh(s.session + 1, true))
    case ClosedDown =>
      if s.awaiting then None else Some(Fresh(s.session, false))
    case Sent(_) =>
      if !s.connected || s.awaiting then None else Some(s.(awaiting := true, sent := s.sent + 1))
    case Arrived(d) =>
      if !s.connected then None else Some(s.(inbox := s.inbox + [d], arrived := s.arrived + [d]))
    case SetAside =>
      if !s.awaiting || s.inbox == [] || !IsEvent(s.inbox[0]) then None
      else Some(s.(inbox := s.inbox[1..], stored := s.stored + [s.inbox[0]]))
    case Answered(d) =>
      if !s.awaiting || s.inbox == [] || IsEvent(s.inbox[0]) || d != s.inbox[0] then None
      else Some(s.(inbox := s.inbox[1..], awaiting := false, answered := s.answered + 1))
    case GaveUp =>
      if !s.awaiting then None else Some(s.(awaiting := false, gaveUp := s.gaveUp + 1))
    case Discarded =>
      if s.awaiting || s.stored != [] || s.inbox == [] || IsEvent(s.inbox[0]) then None
      else Some(s.(inbox := s.inbox[1..], discarded := s.discarded + 1))
    case TookStored(d) =>
      if s.awaiting || s.stored == [] || d != s.stored[0] then None
      else Some(s.(stored := s.stored[1..], delivered := s.delivered + [d]))
    case TookFresh(d) =>
      if s.awaiting || s.stored != [] || s.inbox == [] || !IsEvent(s.inbox[0]) || d != s.inbox[0] then None
      else Some(s.(inbox := s.inbox[1..], delivered := s.delivered + [d]))
  }

  /** The state a log of steps leads to from a connection never opened, if every step was allowed. */
  function StateAfter(log: seq<Action>): Option<State> {
    if log == [] then Some(Fresh(0, false))
    else
      match StateAfter(log[..|log| - 1])
      case None => None
      case Some(s) => Next(s, log[|log| - 1])
  }

  lemma AfterStep(log: seq<Action>, a: Action)
    ensures StateAfter(log + [a]) == match StateAfter(log) case None => None case Some(s) => Next(s, a)
  {
    assert (log + [a])[..|log|] == log;
  }

  /** A wait may end without what it waits for when nothing is queued, or right after the step that used up
      its time. */
  predicate Exhausted(steps: seq<Action>, step: Action, inbox: seq<string>) {
    inbox == [] || (steps != [] && steps[|steps| - 1] == step)
  }

  // ----- events are conserved

  /** The events among some datagrams, in their order. */
  function EventsIn(datagrams: seq<string>): seq<string> {
    if datagrams == [] then []
    else
      EventsIn(datagrams[..|datagrams| - 1])
      + (var d := datagrams[|datagrams| - 1]; if IsEvent(d) then [d] else [])
  }

  /** The replies among some datagrams. */
  function RepliesIn(datagrams: seq<string>): (replies: seq<string>)
    ensures |replies| <= |datagrams|
  {
    if datagrams == [] then []
    else
      RepliesIn(datagrams[..|datagrams| - 1])
      + (var d := datagrams[|datagrams| - 1]; if IsEvent(d) then [] else [d])
  }

  lemma {:induction false} InAppend(a: seq<string>, b: seq<string>)
    ensures EventsIn(a + b) == EventsIn(a) + EventsIn(b)
    ensures RepliesIn(a + b) == RepliesIn(a) + RepliesIn(b)
  {
    if b == [] {
      assert a + b == a;
    } else {
      var n := |b| - 1;
      assert (a + b)[..|a + b| - 1] == a + b[..n];
      InAppend(a, b[..n]);
    }
  }

  lemma InSingle(d: string)
    ensures EventsIn([d]) == if IsEvent(d) then [d] else []
    ensures RepliesIn([d]) == if IsEvent(d) then [] else [d]
  {
    assert [d][..0] == [];
  }

  lemma InLast(datagrams: seq<string>, d: string)
    ensures EventsIn(datagrams + [d]) == EventsIn(datagrams) + if IsEvent(d) then [d] else []
    ensures RepliesIn(datagrams + [d]) == RepliesIn(datagrams) + if IsEvent(d) then [] else [d]
  {
    assert (datagrams + [d])[..|datagrams|] == datagrams;
  }

  lemma EventFirst(inbox: seq<string>)
    requires inbox != [] && IsEvent(inbox[0])
    ensures EventsIn(inbox) == [inbox[0]] + EventsIn(inbox[1..])
    ensures RepliesIn(inbox) == RepliesIn(inbox[1..])
  {
    assert inbox == [inbox[0]] + inbox[1..];
    InAppend([inbox[0]], inbox[1..]);
    InSingle(inbox[0]);
  }

  lemma ReplyFirst(inbox: seq<string>)
    requires inbox != [] && !IsEvent(inbox[0])
    ensures EventsIn(inbox) == EventsIn(inbox[1..])
    ensures RepliesIn(inbox) == [inbox[0]] + RepliesIn(inbox[1..])
  {
    assert inbox == [inbox[0]] + inbox[1..];
    InAppend([inbox[0]], inbox[1..]);
    InSingle(inbox[0]);
  }

  /** Every event that arrived has been delivered, is set aside, or is still queued, in arrival order. */
  predicate Conserved(s: State) {
    s.delivered + s.stored + EventsIn(s.inbox) == EventsIn(s.arrived)
  }

  lemma ConservedArrival(s: State, d: string)
    requires Conserved(s)
    ensures Conserved(s.(inbox := s.inbox + [d], arrived := s.arrived + [d]))
  {
    InLast(s.inbox, d);
    InLast(s.arrived, d);
    Associate(s.delivered + s.stored, EventsIn(s.inbox), if IsEvent(d) then [d] else []);
  }

  lemma ConservedEvent(s: State)
    requires Conserved(s) && s.inbox != [] && IsEvent(s.inbox[0])
    ensures var event := s.inbox[0];
      && Conserved(s.(inbox := s.inbox[1..], stored := s.stored + [event]))
      && (s.stored == [] ==> Conserved(s.(inbox := s.inbox[1..], delivered := s.delivered + [event])))
  {
    var event, rest := s.inbox[0], EventsIn(s.inbox[1..]);
    EventFirst(s.inbox);
    Associate(s.delivered + s.stored, [event], rest);
    Associate(s.delivered, s.stored, [event]);
    if s.stored == [] {
      assert s.delivered + s.stored == s.delivered;
      assert s.delivered + [event] + s.stored == s.delivered + [event];
    }
  }

  lemma ConservedDelivery(s: State)
    requires Conserved(s) && s.stored != []
    ensures Conserved(s.(stored := s.stored[1..], delivered := s.delivered + [s.stored[0]]))
  {
    assert s.stored == [s.stored[0]] + s.stored[1..];
    Associate(s.delivered, [s.stored[0]], s.stored[1..]);
  }

  lemma ConservedStep(s: State, a: Action)
    requires Conserved(s) && Next(s, a).Some?
    ensures Conserved(Next(s, a).value)
  {
    match a {
      case Arrived(d) => ConservedArrival(s, d);
      case SetAside => ConservedEvent(s);
      case TookFresh(_) => ConservedEvent(s);
      case TookStored(_) => ConservedDelivery(s);
      case Answered(_) => ReplyFirst(s.inbox);
      case Discarded => ReplyFirst(s.inbox);
      case _ =>
    }
  }

  /** Over every run, whatever timed out in it, no event is lost, repeated or reordered. */
  lemma {:induction false} EventsAreConserved(log: seq<Action>)
    requires StateAfter(log).Some?
    ensures Conserved(StateAfter(log).value)
  {
    if log != [] {
      EventsAreConserved(log[..|log| - 1]);
      ConservedStep(StateAfter(log[..|log| - 1]).value, log[|log| - 1]);
    }
  }

  // ----- replies and the commands they answer

  /** Requests given up on, less the replies thrown away since: how far answers lag behind commands. */
  function Debt(s: State): int {
    s.gaveUp - s.discarded
  }

  /** Every reply that arrived has been taken or is still queued; every command was answered, given up
      on, or is being waited for. */
  predicate Accounted(s: State) {
    && s.answered + s.discarded <= |RepliesIn(s.arrived)|
    && RepliesIn(s.arrived)[s.answered + s.discarded..] == RepliesIn(s.inbox)
    && s.sent == s.answered + s.gaveUp + (if s.awaiting then 1 else 0)
    && (!s.connected ==> s == Fresh(s.session, false))
  }

  lemma AccountedArrival(s: State, d: string)
    requires Accounted(s) && s.connected
    ensures Accounted(s.(inbox := s.inbox + [d], arrived := s.arrived + [d]))
  {
    InLast(s.inbox, d);
    InLast(s.arrived, d);
  }

  lemma OneMoreTaken<T>(all: seq<T>, taken: nat, rest: seq<T>)
    requires taken <= |all| && rest != [] && all[taken..] == rest
    ensures taken < |all| && all[taken] == rest[0] && all[taken + 1..] == rest[1..]
  {
    assert |all[taken..]| == |rest|;
  }

  lemma AccountedReply(s: State)
    requires Accounted(s) && s.inbox != [] && !IsEvent(s.inbox[0])
    ensures var taken := s.answered + s.discarded;
      && taken < |RepliesIn(s.arrived)| && RepliesIn(s.arrived)[taken] == s.inbox[0]
      && RepliesIn(s.arrived)[taken + 1..] == RepliesIn(s.inbox[1..])
  {
    ReplyFirst(s.inbox);
    OneMoreTaken(RepliesIn(s.arrived), s.answered + s.discarded, RepliesIn(s.inbox));
  }

  lemma AccountedStep(s: State, a: Action)
    requires Accounted(s) && Next(s, a).Some?
    ensures Accounted(Next(s, a).value)
  {
    match a {
      case Arrived(d) => AccountedArrival(s, d);
      case SetAside => EventFirst(s.inbox);
      case TookFresh(_) => EventFirst(s.inbox);
      case Answered(_) => AccountedTaking(s, a);
      case Discarded => AccountedTaking(s, a);
      case _ =>
    }
  }

  lemma AccountedTaking(s: State, a: Action)
    requires Accounted(s) && Next(s, a).Some? && (a.Answered? || a == Discarded)
    ensures Accounted(Next(s, a).value)
  {
    AccountedReply(s);
  }

  lemma {:induction false} RepliesAreAccounted(log: seq<Action>)
    requires StateAfter(log).Some?
    ensures Accounted(StateAfter(log).value)
  {
    if log != [] {
      RepliesAreAccounted(log[..|log| - 1]);
      AccountedStep(StateAfter(log[..|log| - 1]).value, log[|log| - 1]);
    }
  }

  /** What the daemon answers to the commands of one session, in their order. */
  datatype Answers = Answers(session: nat, texts: seq<string>)

  /** In that session, so far, it answered each command once, in order and not before it was sent. */
  predicate InOrder(s: State, answers: Answers) {
    s.session == answers.session ==>
      |RepliesIn(s.arrived)| <= s.sent && RepliesIn(s.arrived) <= answers.texts
  }

  predicate AnswerAt(answers: Answers, k: int, reply: string) {
    0 <= k < |answers.texts| && answers.texts[k] == reply
  }

  /** It did so at every point of the run. */
  predicate Honest(log: seq<Action>, answers: Answers)
    requires StateAfter(log).Some?
  {
    InOrder(StateAfter(log).value, answers) && (log != [] ==> Honest(log[..|log| - 1], answers))
  }

  function Underway(s: State): int {
    if s.awaiting then 1 else 0
  }

  lemma UnansweredInState(s: State, answers: Answers)
    requires Accounted(s) && InOrder(s, answers) && s.session == answers.session
    ensures Debt(s) + Underway(s) == s.sent - |RepliesIn(s.arrived)| + |RepliesIn(s.inbox)|
    ensures |RepliesIn(s.inbox)| <= Debt(s) + Underway(s)
  {
  }

  /** The debt counts the commands still unanswered, the one under way apart, and no more replies than
      those are queued. */
  lemma DebtIsUnanswered(log: seq<Action>, s: State, answers: Answers)
    requires StateAfter(log) == Some(s) && Honest(log, answers) && s.session == answers.session
    ensures Debt(s) + Underway(s) == s.sent - |RepliesIn(s.arrived)| + |RepliesIn(s.inbox)|
    ensures |RepliesIn(s.inbox)| <= Debt(s) + Underway(s)
  {
    RepliesAreAccounted(log);
    UnansweredInState(s, answers);
  }

  lemma ReplyInState(s: State, reply: string, answers: Answers)
    requires Accounted(s) && InOrder(s, answers) && s.session == answers.session
    requires Next(s, Answered(reply)).Some?
    ensures AnswerAt(answers, s.sent - 1 - Debt(s), reply)
  {
    AccountedReply(s);
  }

  /** The reply a request returns is the answer to the command sent debt commands before its own. */
  lemma ReplyOfRequest(log: seq<Action>, s: State, reply: string, answers: Answers)
    requires StateAfter(log) == Some(s) && Honest(log, answers) && s.session == answers.session
    requires Next(s, Answered(reply)).Some?
    ensures AnswerAt(answers, s.sent - 1 - Debt(s), reply)
  {
    RepliesAreAccounted(log);
    ReplyInState(s, reply, answers);
  }

  /** A request under way: datagrams arrive and events among them are set aside. */
  predicate Waiting(a: Action) {
    a.Arrived? || a.SetAside?
  }

  lemma {:induction false} DebtWhileWaiting(log: seq<Action>, during: seq<Action>, t: State)
    requires StateAfter(log + during) == Some(t)
    requires forall i | 0 <= i < |during| :: Waiting(during[i])
    ensures StateAfter(log).Some?
    ensures var s := StateAfter(log).value; t.sent == s.sent && Debt(t) == Debt(s) && t.session == s.session
  {
    if during == [] {
      assert log + during == log;
    } else {
      var n := |during| - 1;
      assert log + during == log + during[..n] + [during[n]];
      AfterStep(log + during[..n], during[n]);
      DebtWhileWaiting(log, during[..n], StateAfter(log + during[..n]).value);
    }
  }

  lemma {:induction false} HonestBefore(log: seq<Action>, more: seq<Action>, answers: Answers)
    requires StateAfter(log + more).Some? && Honest(log + more, answers)
    ensures StateAfter(log).Some? && Honest(log, answers)
  {
    if more == [] {
      assert log + more == log;
    } else {
      assert (log + more)[..|log + more| - 1] == log + more[..|more| - 1];
      HonestBefore(log, more[..|more| - 1], answers);
    }
  }

  /** From the state s, a request for the command was sent and has waited until the state t. */
  predicate Requesting(before: seq<Action>, s: State, command: string, during: seq<Action>, t: State) {
    && StateAfter(before) == Some(s)
    && (forall i | 0 <= i < |during| :: Waiting(during[i]))
    && StateAfter(before + [Sent(command)] + during) == Some(t)
  }

  lemma SameDebt(before: seq<Action>, s: State, command: string, during: seq<Action>, t: State)
    requires Requesting(before, s, command, during, t)
    ensures t.sent == s.sent + 1 && Debt(t) == Debt(s) && t.session == s.session && !s.awaiting
  {
    DebtWhileWaiting(before + [Sent(command)], during, t);
    AfterStep(before, Sent(command));
  }

  lemma DebtAtStart(before: seq<Action>, s: State, command: string, during: seq<Action>, t: State,
                    answers: Answers)
    requires Requesting(before, s, command, during, t) && s.session == answers.session
    requires Honest(before + [Sent(command)] + during, answers)
    ensures 0 <= Debt(s)
  {
    HonestBefore(before + [Sent(command)], during, answers);
    HonestBefore(before, [Sent(command)], answers);
    DebtIsNotNegative(before, s, answers);
  }

  lemma AnswerAtEnd(before: seq<Action>, s: State, command: string, during: seq<Action>, t: State,
                    reply: string, answers: Answers)
    requires Requesting(before, s, command, during, t) && t.session == answers.session
    requires Honest(before + [Sent(command)] + during, answers)
    requires Next(t, Answered(reply)).Some?
    ensures AnswerAt(answers, t.sent - 1 - Debt(t), reply)
  {
    ReplyOfRequest(before + [Sent(command)] + during, t, reply, answers);
  }

  lemma SameAnswer(s: State, t: State, reply: string, answers: Answers)
    requires t.sent == s.sent + 1 && Debt(t) == Debt(s) && AnswerAt(answers, t.sent - 1 - Debt(t), reply)
    ensures AnswerAt(answers, s.sent - Debt(s), reply)
  {
  }

  /** Reply correspondence, over every run and for every request in it: a request that finds the debt d at
      its start and returns, returns the answer to the command sent d before its own. So it returns its own
      answer exactly when the answers to everything given up on have been thrown away. */
  lemma RequestAndReply(before: seq<Action>, s: State, command: string, during: seq<Action>, t: State,
                        reply: string, answers: Answers)
    requires Requesting(before, s, command, during, t) && s.session == answers.session
    requires Honest(before + [Sent(command)] + during, answers)
    requires Next(t, Answered(reply)).Some?
    ensures 0 <= Debt(s) && AnswerAt(answers, s.sent - Debt(s), reply)
  {
    SameDebt(before, s, command, during, t);
    AnswerAtEnd(before, s, command, during, t, reply, answers);
    SameAnswer(s, t, reply, answers);
    DebtAtStart(before, s, command, during, t, answers);
  }

  /** With no request given up on, the debt is zero and stays zero: there is nothing to throw away. */
  lemma NoTimeoutNoDebt(log: seq<Action>, s: State, answers: Answers)
    requires StateAfter(log) == Some(s) && Honest(log, answers) && s.session == answers.session && s.gaveUp == 0
    ensures Debt(s) == 0
    ensures !s.awaiting ==> RepliesIn(s.inbox) == []
  {
    DebtIsNotNegative(log, s, answers);
    DebtIsUnanswered(log, s, answers);
  }

  /** Only a reply to a request that was given up on is ever thrown away. */
  lemma {:induction false} DebtIsNotNegative(log: seq<Action>, s: State, answers: Answers)
    requires StateAfter(log) == Some(s) && Honest(log, answers) && s.session == answers.session
    ensures Debt(s) >= 0
  {
    if log != [] {
      var earlier := log[..|log| - 1];
      var r := StateAfter(earlier).value;
      if r.session == s.session {
        DebtIsNotNegative(earlier, r, answers);
        DebtIsUnanswered(earlier, r, answers);
        if log[|log| - 1] == Discarded {
          ReplyFirst(r.inbox);
        }
      }
    }
  }

  lemma HonestStep(log: seq<Action>, a: Action, s: State, t: State, answers: Answers)
    requires StateAfter(log) == Some(s) && Honest(log, answers) && Next(s, a) == Some(t) && InOrder(t, answers)
    ensures StateAfter(log + [a]) == Some(t) && Honest(log + [a], answers)
  {
    AfterStep(log, a);
    assert (log + [a])[..|log|] == log;
  }

  /** A session in which one request was sent and given up on. */
  function GivenUp(session: nat): State {
    Fresh(session, true).(sent := 1, gaveUp := 1)
  }

  lemma OneGivenUp(command: string, answers: Answers)
    requires answers.session == 1
    ensures StateAfter([Opened] + [Sent(command)] + [GaveUp]) == Some(GivenUp(1))
    ensures Honest([Opened] + [Sent(command)] + [GaveUp], answers)
  {
    var s1 := Fresh(1, true);
    var s2 := s1.(awaiting := true, sent := 1);
    HonestStep([], Opened, Fresh(0, false), s1, answers);
    assert [] + [Opened] == [Opened];
    HonestStep([Opened], Sent(command), s1, s2, answers);
    HonestStep([Opened] + [Sent(command)], GaveUp, s2, GivenUp(1), answers);
  }

  /** A request need not return the answer to its own command: after one that was given up on, the late
      answer to that one is what the next returns. */
  lemma LateReplyIsMistaken(first: string, second: string, late: string, own: string)
    requires !IsEvent(late)
    ensures var log := [Opened] + [Sent(first)] + [GaveUp] + [Sent(second)] + [Arrived(late)]
                       + [Answered(late)];
      StateAfter(log).Some? && Honest(log, Answers(1, [late, own]))
    ensures late != own ==> !AnswerAt(Answers(1, [late, own]), 1, late)
  {
    var answers := Answers(1, [late, own]);
    var s3 := GivenUp(1);
    var s4 := s3.(awaiting := true, sent := 2);
    var s5 := s4.(inbox := [late], arrived := [late]);
    var s6 := s5.(inbox := [], awaiting := false, answered := 1);
    var log := [Opened] + [Sent(first)] + [GaveUp];
    OneGivenUp(first, answers);
    HonestStep(log, Sent(second), s3, s4, answers);
    InSingle(late);
    HonestStep(log + [Sent(second)], Arrived(late), s4, s5, answers);
    assert [late][1..] == [];
    HonestStep(log + [Sent(second)] + [Arrived(late)], Answered(late), s5, s6, answers);
  }
}
