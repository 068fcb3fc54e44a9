/** Reading events with next_event: when None can be trusted, when a request's timeout can, and the draining
    that wpa_ctrl/client.py asks of a caller with an event loop. */
module Reading {
  import opened Client
  import opened Connection
  import opened Events
  import opened Text
  import opened Transport
  import opened Wrappers

  // ----- what reading events changes

  /** From s to t datagrams came and replies were thrown away; nothing else is different. */
  predicate OnlySkipped(s: State, t: State) {
    && t == s.(inbox := t.inbox, arrived := t.arrived, discarded := t.discarded)
    && s.discarded <= t.discarded && s.arrived <= t.arrived
  }

  lemma SkipStep(s: State, a: Action, t: State)
    requires Skipping(a) && Next(s, a) == Some(t)
    ensures OnlySkipped(s, t)
    ensures a == Discarded ==> t.discarded == s.discarded + 1
    ensures EventAtHead(s.inbox) ==> a != Discarded && EventAtHead(t.inbox)
  {
  }

  lemma LastOf(log: seq<Action>, steps: seq<Action>) returns (r: State)
    requires steps != [] && StateAfter(log + steps).Some?
    ensures StateAfter(log + steps[..|steps| - 1]) == Some(r)
    ensures Next(r, steps[|steps| - 1]) == StateAfter(log + steps)
    ensures log + steps == log + steps[..|steps| - 1] + [steps[|steps| - 1]]
  {
    var n := |steps| - 1;
    assert log + steps == log + steps[..n] + [steps[n]];
    AfterStep(log + steps[..n], steps[n]);
    r := StateAfter(log + steps[..n]).value;
  }

  lemma {:induction false} AfterSkipping(log: seq<Action>, s: State, skipped: seq<Action>, t: State)
    requires StateAfter(log) == Some(s) && StateAfter(log + skipped) == Some(t) && AllSkipping(skipped)
    ensures OnlySkipped(s, t)
    ensures skipped != [] && skipped[|skipped| - 1] == Discarded ==> t.discarded > s.discarded
    ensures EventAtHead(s.inbox) ==> EventAtHead(t.inbox) && (skipped == [] || skipped[|skipped| - 1] != Discarded)
  {
    if skipped == [] {
      assert log + skipped == log;
    } else {
      var n := |skipped| - 1;
      var r := LastOf(log, skipped);
      AfterSkipping(log, s, skipped[..n], r);
      SkipStep(r, skipped[n], t);
    }
  }

  // ----- when None can be trusted

  /** The steps of a next_event that answers None: it skipped until nothing was queued, or until throwing a
      reply away had used up its time. */
  ghost predicate GaveNone(log: seq<Action>, skipped: seq<Action>) {
    && AllSkipping(skipped) && StateAfter(log + skipped).Some?
    && Exhausted(skipped, Discarded, StateAfter(log + skipped).value.inbox)
  }

  /** With no request given up on, None says that nothing was queued. */
  lemma NoneMeansNothing(log: seq<Action>, s: State, skipped: seq<Action>, answers: Answers)
    requires StateAfter(log) == Some(s) && s.session == answers.session
    requires GaveNone(log, skipped) && Honest(log + skipped, answers) && Debt(s) == 0
    ensures StateAfter(log + skipped).value.inbox == []
  {
    var t := StateAfter(log + skipped).value;
    AfterSkipping(log, s, skipped, t);
    DebtIsNotNegative(log + skipped, t, answers);
  }

  /** With an event at the head of the queue there is no None. */
  lemma NoNoneBeforeEvent(log: seq<Action>, s: State, skipped: seq<Action>)
    requires StateAfter(log) == Some(s) && EventAtHead(s.inbox)
    ensures !GaveNone(log, skipped)
  {
    if GaveNone(log, skipped) {
      AfterSkipping(log, s, skipped, StateAfter(log + skipped).value);
    }
  }

  /** Answers to everything sent, none of which looks like an event. */
  predicate AnswersAll(s: State, answers: Answers) {
    s.sent <= |answers.texts| && forall i | 0 <= i < |answers.texts| :: !IsEvent(answers.texts[i])
  }

  /** Ready for next_event to go to the queue: open, no request under way, nothing set aside. */
  predicate Reading(s: State) {
    s.connected && !s.awaiting && s.stored == []
  }

  lemma OneArrives(log: seq<Action>, s: State, d: string, answers: Answers) returns (t: State)
    requires StateAfter(log) == Some(s) && Honest(log, answers) && s.session == answers.session && s.connected
    requires IsEvent(d) || (|RepliesIn(s.arrived)| < s.sent && AnswerAt(answers, |RepliesIn(s.arrived)|, d))
    ensures t == s.(inbox := s.inbox + [d], arrived := s.arrived + [d])
    ensures StateAfter(log + [Arrived(d)]) == Some(t) && Honest(log + [Arrived(d)], answers)
  {
    t := s.(inbox := s.inbox + [d], arrived := s.arrived + [d]);
    HonestStart(log, s, answers);
    StillInOrder(s, d, t, answers);
    HonestStep(log, Arrived(d), s, t, answers);
  }

  lemma StillInOrder(s: State, d: string, t: State, answers: Answers)
    requires InOrder(s, answers) && s.session == answers.session
    requires IsEvent(d) || (|RepliesIn(s.arrived)| < s.sent && AnswerAt(answers, |RepliesIn(s.arrived)|, d))
    requires t == s.(inbox := s.inbox + [d], arrived := s.arrived + [d])
    ensures InOrder(t, answers)
  {
    InLast(s.arrived, d);
  }

  lemma HonestStart(log: seq<Action>, s: State, answers: Answers)
    requires StateAfter(log) == Some(s) && Honest(log, answers)
    ensures InOrder(s, answers)
  {
  }

  lemma HeadDiscarded(log: seq<Action>, s: State, answers: Answers) returns (t: State)
    requires StateAfter(log) == Some(s) && Honest(log, answers) && Reading(s) && ReplyAtHead(s.inbox)
    ensures t == s.(inbox := s.inbox[1..], discarded := s.discarded + 1)
    ensures StateAfter(log + [Discarded]) == Some(t) && Honest(log + [Discarded], answers)
  {
    t := s.(inbox := s.inbox[1..], discarded := s.discarded + 1);
    HonestStart(log, s, answers);
    HonestStep(log, Discarded, s, t, answers);
  }

  /** An event comes in behind a reply that is queued, the reply is thrown away, and None is answered. */
  lemma MissedBehindReply(log: seq<Action>, s: State, event: string, answers: Answers)
    requires StateAfter(log) == Some(s) && Honest(log, answers) && s.session == answers.session
    requires Reading(s) && ReplyAtHead(s.inbox) && IsEvent(event)
    ensures var skipped := [Arrived(event)] + [Discarded];
      GaveNone(log, skipped) && Honest(log + skipped, answers)
      && StateAfter(log + skipped).value.inbox == s.inbox[1..] + [event]
  {
    var s1 := OneArrives(log, s, event, answers);
    var s2 := HeadDiscarded(log + [Arrived(event)], s1, answers);
    Associate(log, [Arrived(event)], [Discarded]);
    DropAppend(s.inbox, [event], 1);
  }

  /** A late reply comes in first, then the event. */
  lemma MissedBehindLateReply(log: seq<Action>, s: State, late: string, event: string, answers: Answers)
    requires StateAfter(log) == Some(s) && Honest(log, answers) && s.session == answers.session
    requires Reading(s) && s.inbox == [] && IsEvent(event) && !IsEvent(late)
    requires |RepliesIn(s.arrived)| < s.sent && AnswerAt(answers, |RepliesIn(s.arrived)|, late)
    ensures var skipped := [Arrived(late)] + ([Arrived(event)] + [Discarded]);
      GaveNone(log, skipped) && Honest(log + skipped, answers)
      && StateAfter(log + skipped).value.inbox == [event]
  {
    var s1 := OneArrives(log, s, late, answers);
    MissedBehindReply(log + [Arrived(late)], s1, event, answers);
    Associate(log, [Arrived(late)], [Arrived(event)] + [Discarded]);
    assert s1.inbox[1..] + [event] == [event];
  }

  /** While a request given up on is unanswered, None may be answered in front of an event. */
  lemma NoneMayMiss(log: seq<Action>, s: State, event: string, answers: Answers) returns (skipped: seq<Action>)
    requires StateAfter(log) == Some(s) && Honest(log, answers) && s.session == answers.session
    requires Reading(s) && AnswersAll(s, answers) && IsEvent(event)
    requires Debt(s) > 0 && !EventAtHead(s.inbox)
    ensures GaveNone(log, skipped) && Honest(log + skipped, answers)
    ensures event in StateAfter(log + skipped).value.inbox
  {
    if s.inbox != [] {
      MissedBehindReply(log, s, event, answers);
      skipped := [Arrived(event)] + [Discarded];
    } else {
      DebtIsUnanswered(log, s, answers);
      var late := answers.texts[|RepliesIn(s.arrived)|];
      MissedBehindLateReply(log, s, late, event, answers);
      skipped := [Arrived(late)] + ([Arrived(event)] + [Discarded]);
    }
  }

  /** Whatever an honest daemon does during the call, None leaves no event queued. */
  ghost predicate Trusted(log: seq<Action>, answers: Answers) {
    forall skipped | GaveNone(log, skipped) && Honest(log + skipped, answers) ::
      EventsIn(StateAfter(log + skipped).value.inbox) == []
  }

  lemma {:induction false} EventQueued(inbox: seq<string>, event: string)
    requires event in inbox && IsEvent(event)
    ensures EventsIn(inbox) != []
  {
    var n := |inbox| - 1;
    if inbox[n] != event {
      assert inbox == inbox[..n] + [inbox[n]];
      EventQueued(inbox[..n], event);
    }
  }

  /** The documentation has None mean that no event came in time. That can be trusted if and only if no
      request that was given up on is still unanswered, or an event heads the queue and there is no None. */
  lemma NoneIsTrustedExactlyWhen(log: seq<Action>, s: State, answers: Answers)
    requires StateAfter(log) == Some(s) && Honest(log, answers) && s.session == answers.session
    requires Reading(s) && AnswersAll(s, answers)
    ensures Trusted(log, answers) <==> Debt(s) == 0 || EventAtHead(s.inbox)
  {
    DebtIsNotNegative(log, s, answers);
    if Debt(s) == 0 {
      forall skipped | GaveNone(log, skipped) && Honest(log + skipped, answers)
        ensures EventsIn(StateAfter(log + skipped).value.inbox) == []
      {
        NoneMeansNothing(log, s, skipped, answers);
      }
    } else if EventAtHead(s.inbox) {
      forall skipped: seq<Action> ensures !GaveNone(log, skipped) {
        NoNoneBeforeEvent(log, s, skipped);
      }
    } else {
      var skipped := NoneMayMiss(log, s, "<", answers);
      EventQueued(StateAfter(log + skipped).value.inbox, "<");
    }
  }

  /** The run that shows it: a request is given up on, its answer and then an event come in, the answer is
      thrown away, None is answered, and the event is still queued. */
  lemma NoneInFrontOfEvent(command: string, late: string, event: string)
    requires !IsEvent(late) && IsEvent(event)
    ensures var log := [Opened] + [Sent(command)] + [GaveUp];
      var skipped := [Arrived(late)] + ([Arrived(event)] + [Discarded]);
      GaveNone(log, skipped) && Honest(log + skipped, Answers(1, [late]))
      && StateAfter(log + skipped).value.inbox == [event]
  {
    var answers := Answers(1, [late]);
    OneGivenUp(command, answers);
    MissedBehindLateReply([Opened] + [Sent(command)] + [GaveUp], GivenUp(1), late, event, answers);
  }

  // ----- when the timeout of a request can be trusted

  lemma {:induction false} AfterWaiting(log: seq<Action>, s: State, during: seq<Action>, t: State)
    requires StateAfter(log) == Some(s) && StateAfter(log + during) == Some(t) && AllWaiting(during)
    ensures t.delivered == s.delivered && s.stored <= t.stored
    ensures during != [] && during[|during| - 1] == SetAside ==> |s.stored| < |t.stored|
  {
    if during == [] {
      assert log + during == log;
    } else {
      var r := LastOf(log, during);
      AfterWaiting(log, s, during[..|during| - 1], r);
    }
  }

  /** A request gives up "only events arrived" right after setting an event aside, with its reply behind it. */
  lemma TimeoutInFrontOfReply(command: string, event: string, reply: string)
    requires IsEvent(event) && !IsEvent(reply)
    ensures var during := [Arrived(event)] + [Arrived(reply)] + [SetAside];
      var log := [Opened] + [Sent(command)] + during;
      && AllWaiting(during) && StateAfter(log).Some? && Honest(log, Answers(1, [reply]))
      && Exhausted(during, SetAside, StateAfter(log).value.inbox)
      && Next(StateAfter(log).value, GaveUp).Some? && StateAfter(log).value.inbox == [reply]
  {
    var answers := Answers(1, [reply]);
    var s1 := Fresh(1, true);
    var s2 := s1.(awaiting := true, sent := 1);
    var log := [Opened] + [Sent(command)];
    HonestStep([], Opened, Fresh(0, false), s1, answers);
    assert [] + [Opened] == [Opened];
    HonestStep([Opened], Sent(command), s1, s2, answers);
    var s3 := OneArrives(log, s2, event, answers);
    InSingle(event);
    var s4 := OneArrives(log + [Arrived(event)], s3, reply, answers);
    var s5 := s4.(inbox := [reply], stored := [event]);
    HonestStart(log + [Arrived(event)] + [Arrived(reply)], s4, answers);
    HonestStep(log + [Arrived(event)] + [Arrived(reply)], SetAside, s4, s5, answers);
    var during := [Arrived(event)] + [Arrived(reply)] + [SetAside];
    assert log + during == log + [Arrived(event)] + [Arrived(reply)] + [SetAside];
  }

  /** Where no event is queued or comes, as on a connection that is not attached, a request that times out
      leaves nothing queued. */
  lemma TimeoutMeansNothing(before: seq<Action>, s: State, command: string, during: seq<Action>, t: State)
    requires Requesting(before, s, command, during, t) && Exhausted(during, SetAside, t.inbox)
    requires EventsIn(s.inbox) == [] && EventsIn(t.arrived) == EventsIn(s.arrived)
    ensures t.inbox == []
  {
    var start := before + [Sent(command)];
    BeforeWaiting(start, during);
    AfterStep(before, Sent(command));
    AfterWaiting(start, s.(awaiting := true, sent := s.sent + 1), during, t);
    EventsAreConserved(before);
    EventsAreConserved(start + during);
    assert |s.delivered + s.stored + EventsIn(s.inbox)| == |s.delivered| + |s.stored|;
    assert |t.delivered + t.stored + EventsIn(t.inbox)| >= |t.delivered| + |t.stored|;
  }

  lemma BeforeWaiting(start: seq<Action>, during: seq<Action>)
    requires StateAfter(start + during).Some? && AllWaiting(during)
    ensures StateAfter(start).Some?
  {
    DebtWhileWaiting(start, during, StateAfter(start + during).value);
  }

  lemma {:induction false} ReplyStaysAtHead(log: seq<Action>, s: State, during: seq<Action>, t: State)
    requires StateAfter(log) == Some(s) && StateAfter(log + during) == Some(t) && AllWaiting(during)
    requires ReplyAtHead(s.inbox)
    ensures ReplyAtHead(t.inbox) && (during == [] || during[|during| - 1] != SetAside)
  {
    if during == [] {
      assert log + during == log;
    } else {
      var r := LastOf(log, during);
      ReplyStaysAtHead(log, s, during[..|during| - 1], r);
    }
  }

  // ----- which reply a request returns

  predicate AllEvents(datagrams: seq<string>) {
    forall d | d in datagrams :: IsEvent(d)
  }

  /** From s to t these datagrams came in, and those at the head of the queue, events all, were set aside. */
  ghost predicate WaitedFor(s: State, t: State, arrivals: seq<string>, aside: seq<string>) {
    && t.arrived == s.arrived + arrivals && t.stored == s.stored + aside && AllEvents(aside)
    && s.inbox + arrivals == aside + t.inbox
  }

  lemma WaitStep(s: State, r: State, arrivals: seq<string>, aside: seq<string>, a: Action, t: State)
    returns (arrivals': seq<string>, aside': seq<string>)
    requires WaitedFor(s, r, arrivals, aside) && Waiting(a) && Next(r, a) == Some(t)
    ensures WaitedFor(s, t, arrivals', aside')
  {
    if a.Arrived? {
      arrivals', aside' := arrivals + [a.datagram], aside;
      Associate(s.inbox, arrivals, [a.datagram]);
      Associate(aside, r.inbox, [a.datagram]);
    } else {
      arrivals', aside' := arrivals, aside + [r.inbox[0]];
      assert r.inbox == [r.inbox[0]] + t.inbox;
      Associate(aside, [r.inbox[0]], t.inbox);
    }
  }

  lemma {:induction false} WaitingTakesEvents(log: seq<Action>, s: State, during: seq<Action>, t: State)
    returns (arrivals: seq<string>, aside: seq<string>)
    requires StateAfter(log) == Some(s) && StateAfter(log + during) == Some(t) && AllWaiting(during)
    ensures WaitedFor(s, t, arrivals, aside)
  {
    arrivals, aside := [], [];
    if during == [] {
      assert log + during == log;
    } else {
      var r := LastOf(log, during);
      arrivals, aside := WaitingTakesEvents(log, s, during[..|during| - 1], r);
      arrivals, aside := WaitStep(s, r, arrivals, aside, during[|during| - 1], t);
    }
  }

  /** Whatever comes in while it waits, an answered request returns the first reply of the queue, sets aside
      the events in front of it, and leaves all that is behind it. */
  lemma FirstReplyIsReturned(before: seq<Action>, s: State, command: string, during: seq<Action>,
                             datagram: string, t: State) returns (arrivals: seq<string>, aside: seq<string>)
    requires StateAfter(before) == Some(s) && AllWaiting(during)
    requires StateAfter(before + [Sent(command)] + during + [Answered(datagram)]) == Some(t)
    ensures t.arrived == s.arrived + arrivals && t.stored == s.stored + aside
    ensures s.inbox + arrivals == aside + [datagram] + t.inbox
    ensures AllEvents(aside) && !IsEvent(datagram)
    ensures RepliesIn(s.inbox) != [] ==> datagram == RepliesIn(s.inbox)[0]
  {
    var start := before + [Sent(command)];
    BeforeStep(start + during, Answered(datagram));
    BeforeWaiting(start, during);
    AfterStep(before, Sent(command));
    var r := StateAfter(start + during).value;
    arrivals, aside := WaitingTakesEvents(start, StateAfter(start).value, during, r);
    assert r.inbox == [datagram] + t.inbox;
    Associate(aside, [datagram], t.inbox);
    FirstReply(s.inbox, arrivals, aside, datagram, t.inbox);
  }

  lemma {:induction false} NoReplies(datagrams: seq<string>)
    requires AllEvents(datagrams)
    ensures RepliesIn(datagrams) == []
  {
    if datagrams != [] {
      NoReplies(datagrams[..|datagrams| - 1]);
    }
  }

  lemma FirstReply(inbox: seq<string>, arrivals: seq<string>, aside: seq<string>, reply: string,
                   behind: seq<string>)
    requires inbox + arrivals == aside + [reply] + behind && AllEvents(aside) && !IsEvent(reply)
    ensures RepliesIn(inbox) != [] ==> reply == RepliesIn(inbox)[0]
  {
    InAppend(inbox, arrivals);
    InAppend(aside + [reply], behind);
    InLast(aside, reply);
    NoReplies(aside);
    assert RepliesIn(inbox) + RepliesIn(arrivals) == [reply] + RepliesIn(behind);
    assert ([reply] + RepliesIn(behind))[0] == reply;
  }

  /** The steps of a request that times out. */
  ghost predicate TimedOutAfter(before: seq<Action>, s: State, command: string, during: seq<Action>, t: State) {
    Requesting(before, s, command, during, t) && Exhausted(during, SetAside, t.inbox)
  }

  /** Whatever an honest daemon does during the call, a timeout leaves no reply queued. */
  ghost predicate TimeoutTrusted(before: seq<Action>, s: State, command: string, answers: Answers) {
    forall during, t |
      TimedOutAfter(before, s, command, during, t) && Honest(before + [Sent(command)] + during, answers) ::
      RepliesIn(t.inbox) == []
  }

  /** With a reply at the head of the queue there is no timeout. */
  lemma NoTimeoutBeforeReply(before: seq<Action>, s: State, command: string, during: seq<Action>, t: State)
    requires StateAfter(before) == Some(s) && ReplyAtHead(s.inbox)
    ensures !TimedOutAfter(before, s, command, during, t)
  {
    if TimedOutAfter(before, s, command, during, t) {
      BeforeWaiting(before + [Sent(command)], during);
      AfterStep(before, Sent(command));
      ReplyStaysAtHead(before + [Sent(command)], s.(awaiting := true, sent := s.sent + 1), during, t);
    }
  }

  lemma AnswerComes(before: seq<Action>, s: State, answers: Answers) returns (reply: string, t: State)
    requires StateAfter(before) == Some(s) && Honest(before, answers) && s.session == answers.session
    requires s.connected && |RepliesIn(s.arrived)| < s.sent <= |answers.texts|
    requires forall i | 0 <= i < |answers.texts| :: !IsEvent(answers.texts[i])
    ensures !IsEvent(reply)
    ensures t == s.(inbox := s.inbox + [reply], arrived := s.arrived + [reply])
    ensures StateAfter(before + [Arrived(reply)]) == Some(t) && Honest(before + [Arrived(reply)], answers)
  {
    reply := answers.texts[|RepliesIn(s.arrived)|];
    t := OneArrives(before, s, reply, answers);
  }

  /** The next request of an idle connection, as far as its command. */
  lemma CommandGoes(before: seq<Action>, s: State, command: string, answers: Answers) returns (t: State)
    requires StateAfter(before) == Some(s) && Honest(before, answers) && s.session == answers.session
    requires s.connected && !s.awaiting
    ensures t == s.(awaiting := true, sent := s.sent + 1) && |RepliesIn(t.arrived)| < t.sent
    ensures StateAfter(before + [Sent(command)]) == Some(t) && Honest(before + [Sent(command)], answers)
  {
    t := s.(awaiting := true, sent := s.sent + 1);
    HonestStart(before, s, answers);
    HonestStep(before, Sent(command), s, t, answers);
  }

  lemma HeadSetAside(before: seq<Action>, s: State, answers: Answers) returns (t: State)
    requires StateAfter(before) == Some(s) && Honest(before, answers) && s.awaiting && EventAtHead(s.inbox)
    ensures t == s.(inbox := s.inbox[1..], stored := s.stored + [s.inbox[0]])
    ensures StateAfter(before + [SetAside]) == Some(t) && Honest(before + [SetAside], answers)
  {
    t := s.(inbox := s.inbox[1..], stored := s.stored + [s.inbox[0]]);
    HonestStart(before, s, answers);
    HonestStep(before, SetAside, s, t, answers);
  }

  lemma LastReplyQueued(inbox: seq<string>, reply: string)
    requires !IsEvent(reply) && inbox != []
    ensures RepliesIn((inbox + [reply])[1..]) != []
  {
    DropAppend(inbox, [reply], 1);
    InLast(inbox[1..], reply);
  }

  /** Without a reply at the head, an event and then the answer come in, the event at the head is set aside,
      and time is up. */
  lemma TimeoutMayMiss(before: seq<Action>, s: State, command: string, event: string, answers: Answers)
    returns (during: seq<Action>, t: State)
    requires StateAfter(before) == Some(s) && Honest(before, answers) && s.session == answers.session
    requires s.connected && !s.awaiting && s.sent < |answers.texts| && !ReplyAtHead(s.inbox) && IsEvent(event)
    requires forall i | 0 <= i < |answers.texts| :: !IsEvent(answers.texts[i])
    ensures TimedOutAfter(before, s, command, during, t) && RepliesIn(t.inbox) != []
    ensures Honest(before + [Sent(command)] + during, answers)
  {
    var start := before + [Sent(command)];
    var s1 := CommandGoes(before, s, command, answers);
    var s2 := OneArrives(start, s1, event, answers);
    InLast(s1.arrived, event);
    var reply, s3 := AnswerComes(start + [Arrived(event)], s2, answers);
    t := HeadSetAside(start + [Arrived(event)] + [Arrived(reply)], s3, answers);
    during := [Arrived(event)] + [Arrived(reply)] + [SetAside];
    assert start + during == start + [Arrived(event)] + [Arrived(reply)] + [SetAside];
    LastReplyQueued(s2.inbox, reply);
  }

  /** The documentation has a timeout mean that no reply came, only events. That can be trusted, before the
      call, if and only if a reply heads the queue: and then there is no timeout. */
  lemma TimeoutIsTrustedExactlyWhen(before: seq<Action>, s: State, command: string, answers: Answers)
    requires StateAfter(before) == Some(s) && Honest(before, answers) && s.session == answers.session
    requires s.connected && !s.awaiting && s.sent < |answers.texts|
    requires forall i | 0 <= i < |answers.texts| :: !IsEvent(answers.texts[i])
    ensures TimeoutTrusted(before, s, command, answers) <==> ReplyAtHead(s.inbox)
  {
    if ReplyAtHead(s.inbox) {
      forall during: seq<Action>, t: State ensures !TimedOutAfter(before, s, command, during, t) {
        NoTimeoutBeforeReply(before, s, command, during, t);
      }
    } else {
      var during, t := TimeoutMayMiss(before, s, command, "<", answers);
    }
  }

  // ----- the same on a connection that is not attached

  /** The steps of a request that times out while no event comes in. */
  ghost predicate TimedOutQuietly(before: seq<Action>, s: State, command: string, during: seq<Action>, t: State) {
    TimedOutAfter(before, s, command, during, t) && EventsIn(t.arrived) == EventsIn(s.arrived)
  }

  ghost predicate QuietTimeoutTrusted(before: seq<Action>, s: State, command: string, answers: Answers) {
    forall during, t |
      TimedOutQuietly(before, s, command, during, t) && Honest(before + [Sent(command)] + during, answers) ::
      RepliesIn(t.inbox) == []
  }

  lemma QuietTimeout(before: seq<Action>, s: State, command: string, during: seq<Action>, t: State)
    requires TimedOutQuietly(before, s, command, during, t) && !EventAtHead(s.inbox)
    ensures t.inbox == []
  {
    if s.inbox == [] {
      TimeoutMeansNothing(before, s, command, during, t);
    } else {
      NoTimeoutBeforeReply(before, s, command, during, t);
    }
  }

  /** With an event at the head, the answer comes in behind it, the event is set aside, and time is up. */
  lemma QuietTimeoutMayMiss(before: seq<Action>, s: State, command: string, answers: Answers)
    returns (during: seq<Action>, t: State)
    requires StateAfter(before) == Some(s) && Honest(before, answers) && s.session == answers.session
    requires s.connected && !s.awaiting && s.sent < |answers.texts| && EventAtHead(s.inbox)
    requires forall i | 0 <= i < |answers.texts| :: !IsEvent(answers.texts[i])
    ensures TimedOutQuietly(before, s, command, during, t) && RepliesIn(t.inbox) != []
    ensures Honest(before + [Sent(command)] + during, answers)
  {
    var start := before + [Sent(command)];
    var s1 := CommandGoes(before, s, command, answers);
    var reply, s2 := AnswerComes(start, s1, answers);
    t := HeadSetAside(start + [Arrived(reply)], s2, answers);
    during := [Arrived(reply)] + [SetAside];
    Associate(start, [Arrived(reply)], [SetAside]);
    InLast(s.arrived, reply);
    LastReplyQueued(s1.inbox, reply);
  }

  /** Where no event comes in during the call, a timeout leaves no reply queued if and only if no event heads
      the queue when it starts. */
  lemma QuietTimeoutIsTrustedExactlyWhen(before: seq<Action>, s: State, command: string, answers: Answers)
    requires StateAfter(before) == Some(s) && Honest(before, answers) && s.session == answers.session
    requires s.connected && !s.awaiting && s.sent < |answers.texts|
    requires forall i | 0 <= i < |answers.texts| :: !IsEvent(answers.texts[i])
    ensures QuietTimeoutTrusted(before, s, command, answers) <==> !EventAtHead(s.inbox)
  {
    if EventAtHead(s.inbox) {
      var during, t := QuietTimeoutMayMiss(before, s, command, answers);
    } else {
      forall during, t | TimedOutQuietly(before, s, command, during, t) ensures t.inbox == [] {
        QuietTimeout(before, s, command, during, t);
      }
    }
  }

  // ----- draining

  /** From s to t the datagrams of the events got were handed out, and more may have come in. */
  ghost predicate HandedOut(s: State, t: State, got: seq<Event>) {
    EventsOf(t.delivered) == EventsOf(s.delivered) + got && s.arrived <= t.arrived
  }

  lemma NothingHandedOut(log: seq<Action>, s: State, skipped: seq<Action>, t: State)
    requires StateAfter(log) == Some(s) && StateAfter(log + skipped) == Some(t) && AllSkipping(skipped)
    ensures HandedOut(s, t, [])
  {
    AfterSkipping(log, s, skipped, t);
  }

  lemma SkippedThenHandedOut(s: State, r: State, a: Action, datagram: string, t: State)
    requires OnlySkipped(s, r) && Next(r, a) == Some(t)
    requires a == TookStored(datagram) || a == TookFresh(datagram)
    ensures HandedOut(s, t, [EventOf(datagram)])
  {
    assert t.delivered == r.delivered + [datagram] && t.arrived == r.arrived;
    assert r.delivered == s.delivered && s.arrived <= r.arrived;
    EventsOfLast(r.delivered, datagram);
  }

  lemma OneHandedOut(log: seq<Action>, s: State, skipped: seq<Action>, a: Action, datagram: string, t: State)
    requires StateAfter(log) == Some(s) && AllSkipping(skipped) && StateAfter(log + skipped + [a]) == Some(t)
    requires a == TookStored(datagram) || a == TookFresh(datagram)
    ensures HandedOut(s, t, [EventOf(datagram)])
  {
    BeforeStep(log + skipped, a);
    var r := StateAfter(log + skipped).value;
    AfterSkipping(log, s, skipped, r);
    SkippedThenHandedOut(s, r, a, datagram, t);
  }

  lemma HandedOutMore(s: State, r: State, t: State, got: seq<Event>, more: seq<Event>)
    requires HandedOut(s, r, got) && HandedOut(r, t, more)
    ensures HandedOut(s, t, got + more)
  {
    Associate(EventsOf(s.delivered), got, more);
  }

  /** What was handed out between two states of a client, told by conservation. */
  lemma HandedOutIs(s: State, t: State, got: seq<Event>, arrivals: seq<string>)
    requires Conserved(s) && Conserved(t) && HandedOut(s, t, got) && t.arrived == s.arrived + arrivals
    ensures got + EventsOf(t.stored) + EventsOf(EventsIn(t.inbox))
         == EventsOf(s.stored) + EventsOf(EventsIn(s.inbox + arrivals))
  {
    var before, after := EventsOf(s.delivered), EventsOf(t.delivered);
    var rest, more := EventsOf(t.stored) + EventsOf(EventsIn(t.inbox)), EventsOf(EventsIn(arrivals));
    var first, queued := EventsOf(s.stored), EventsOf(EventsIn(s.inbox));
    ParsedAppend(s.arrived, arrivals);
    ParsedAppend(s.inbox, arrivals);
    ParsedConserved(s);
    ParsedConserved(t);
    calc {
      before + (got + rest);
      { Associate(before, got, rest); }
      after + rest;
      { Associate(after, EventsOf(t.stored), EventsOf(EventsIn(t.inbox))); }
      EventsOf(EventsIn(s.arrived)) + more;
      { Associate(before + first, queued, more); Associate(before, first, queued + more); }
      before + (first + (queued + more));
    }
    Cancels(before, got + rest, first + (queued + more));
    Associate(got, EventsOf(t.stored), EventsOf(EventsIn(t.inbox)));
  }

  lemma ParsedAppend(a: seq<string>, b: seq<string>)
    ensures EventsOf(EventsIn(a + b)) == EventsOf(EventsIn(a)) + EventsOf(EventsIn(b))
  {
    InAppend(a, b);
    EventsOfAppend(EventsIn(a), EventsIn(b));
  }

  lemma Cancels<T>(p: seq<T>, x: seq<T>, y: seq<T>)
    requires p + x == p + y
    ensures x == y
  {
    assert (p + x)[|p|..] == x;
    assert (p + y)[|p|..] == y;
  }

  /** One turn of the loop below: an event, unless nothing waits. */
  method DrainOne(client: WpaCtrl) returns (r: Result<()>, waiting: bool, got: seq<Event>)
    requires client.Valid()
    modifies client`events, client`log, client`state, client.transport
    ensures client.Valid() && HandedOut(old(client.state), client.state, got)
    ensures match r
      case Ok(_) =>
        if waiting then |client.events| + client.Ahead() < old(|client.events| + client.Ahead())
        else client.events == [] && client.transport.inbox == []
      case Err(e) => e == ConnectionError && !waiting
    ensures old(client.transport.ticks) <= client.transport.ticks
    ensures r.Err? <==> Faulted(old(client.transport.ticks), client.transport.ticks)
  {
    got := [];
    ghost var ticks := client.transport.ticks;
    ghost var before, first := client.log, client.state;
    var any, early := client.Pending(0.0);
    AfterArrivals(before, first, early);
    assert HandedOut(first, client.state, []);
    if any.Err? {
      return Err(any.error), false, got;
    }
    if !any.value {
      return Ok(()), false, got;
    }
    ghost var log, second, between := client.log, client.state, client.transport.ticks;
    var event, skipped, datagram := client.NextEvent(0.0);
    FaultedLater(ticks, between, client.transport.ticks);
    match event {
      case Err(e) =>
        NothingHandedOut(log, second, skipped, client.state);
        r, waiting := Err(e), false;
      case Ok(None) =>
        NothingHandedOut(log, second, skipped, client.state);
        r, waiting := Ok(()), true;
      case Ok(Some(e)) =>
        HandedOutByNext(log, second, skipped, datagram, client.log, client.state);
        got := [e];
        r, waiting := Ok(()), true;
    }
    HandedOutMore(first, second, client.state, [], got);
    assert [] + got == got;
  }

  lemma HandedOutByNext(log: seq<Action>, s: State, skipped: seq<Action>, datagram: string,
                        after: seq<Action>, t: State)
    requires StateAfter(log) == Some(s) && AllSkipping(skipped) && StateAfter(after) == Some(t)
    requires after == log + skipped + [TookFresh(datagram)]
             || (skipped == [] && after == log + [TookStored(datagram)])
    ensures HandedOut(s, t, [EventOf(datagram)])
  {
    assert skipped == [] ==> log + skipped == log;
    if after == log + skipped + [TookFresh(datagram)] {
      OneHandedOut(log, s, skipped, TookFresh(datagram), datagram, t);
    } else {
      OneHandedOut(log, s, skipped, TookStored(datagram), datagram, t);
    }
  }

  lemma Drained(before: seq<Action>, s: State, after: seq<Action>, t: State, got: seq<Event>)
    returns (arrivals: seq<string>)
    requires StateAfter(before) == Some(s) && StateAfter(after) == Some(t) && HandedOut(s, t, got)
    ensures t.arrived == s.arrived + arrivals
    ensures got + EventsOf(t.stored) + EventsOf(EventsIn(t.inbox))
         == EventsOf(s.stored) + EventsOf(EventsIn(s.inbox + arrivals))
  {
    EventsAreConserved(before);
    EventsAreConserved(after);
    arrivals := t.arrived[|s.arrived|..];
    HandedOutIs(s, t, got, arrivals);
  }

  /** A caller's loop over next_event while pending() stays true, as is asked for where the socket is driven by
      an event loop. All that was set aside, was queued or came in meanwhile is handed out, in its order. */
  method Drain(client: WpaCtrl) returns (r: Result<()>, got: seq<Event>, ghost arrivals: seq<string>)
    requires client.Valid()
    modifies client`events, client`log, client`state, client.transport
    ensures client.Valid() && client.state.arrived == old(client.state.arrived) + arrivals
    ensures got + client.events + EventsOf(EventsIn(client.transport.inbox))
         == old(client.events) + EventsOf(EventsIn(old(client.transport.inbox) + arrivals))
    ensures match r
      case Ok(_) => client.events == [] && client.transport.inbox == []
      case Err(e) => e == ConnectionError && Faulted(old(client.transport.ticks), client.transport.ticks)
  {
    r, got := Ok(()), [];
    ghost var ticks := client.transport.ticks;
    ghost var before, start := client.log, client.state;
    var waiting := true;
    while waiting
      invariant client.Valid() && HandedOut(start, client.state, got)
      invariant r.Ok? && !waiting ==> client.events == [] && client.transport.inbox == []
      invariant r.Err? ==> !waiting && r.error == ConnectionError
      invariant ticks <= client.transport.ticks && (r.Err? <==> Faulted(ticks, client.transport.ticks))
      decreases waiting, |client.events| + client.Ahead()
    {
      var more;
      ghost var turn, between := client.state, client.transport.ticks;
      r, waiting, more := DrainOne(client);
      FaultedLater(ticks, between, client.transport.ticks);
      HandedOutMore(start, turn, client.state, got, more);
      got := got + more;
    }
    arrivals := Drained(before, start, client.log, client.state, got);
  }
}
