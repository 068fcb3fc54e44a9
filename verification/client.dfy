/** wpa_ctrl/client.py: requests, events and the connection's own state, over the transport. */
module Client {
  import opened Connection
  import opened Events
  import opened Text
  import opened Transport
  import opened Wrappers

  /** The steps of some arrivals. */
  function Arrivals(datagrams: seq<string>): (steps: seq<Action>)
    ensures |steps| == |datagrams|
    ensures forall i | 0 <= i < |steps| :: steps[i] == Arrived(datagrams[i])
  {
    if datagrams == [] then []
    else Arrivals(datagrams[..|datagrams| - 1]) + [Arrived(datagrams[|datagrams| - 1])]
  }

  lemma {:induction false} AfterArrivals(log: seq<Action>, s: State, datagrams: seq<string>)
    requires StateAfter(log) == Some(s) && (s.connected || datagrams == [])
    ensures StateAfter(log + Arrivals(datagrams))
         == Some(s.(inbox := s.inbox + datagrams, arrived := s.arrived + datagrams))
  {
    if datagrams == [] {
      assert log + [] == log && s.inbox + [] == s.inbox && s.arrived + [] == s.arrived;
    } else {
      var earlier, last := datagrams[..|datagrams| - 1], datagrams[|datagrams| - 1];
      AfterArrivals(log, s, earlier);
      AfterStep(log + Arrivals(earlier), Arrived(last));
      assert log + Arrivals(datagrams) == log + Arrivals(earlier) + [Arrived(last)];
      assert datagrams == earlier + [last];
      Associate(s.inbox, earlier, [last]);
      Associate(s.arrived, earlier, [last]);
    }
  }

  predicate AllWaiting(steps: seq<Action>) {
    forall i | 0 <= i < |steps| :: Waiting(steps[i])
  }

  lemma WaitingGrows(log: seq<Action>, during: seq<Action>, more: seq<Action>)
    requires AllWaiting(during) && AllWaiting(more)
    ensures AllWaiting(during + more)
    ensures log + during + more == log + (during + more)
  {
  }

  /** Reading events: datagrams arrive and replies among them are thrown away. */
  predicate Skipping(a: Action) {
    a.Arrived? || a == Discarded
  }

  predicate AllSkipping(steps: seq<Action>) {
    forall i | 0 <= i < |steps| :: Skipping(steps[i])
  }

  lemma SkippingGrows(log: seq<Action>, skipped: seq<Action>, more: seq<Action>)
    requires AllSkipping(skipped) && AllSkipping(more)
    ensures AllSkipping(skipped + more)
    ensures log + skipped + more == log + (skipped + more)
  {
  }

  /** How a wait for a reply ended: with the datagram taken, with a failure of the socket, or for want of time. */
  predicate Answer(error: Option<Error>, ticks: seq<Tick>) {
    match error
    case None => EndsTaking(ticks)
    case Some(TimedOut) => EndsMissing(ticks) || TimeUp(ticks)
    case Some(CommandFailed(_, _)) => EndsTaking(ticks)
    case Some(_) => EndsIn(ticks, Fault)
  }

  /** From one point to a later one: a request that waited for its reply until the deadline, or failed before it
      could. */
  predicate InTime(error: Option<Error>, went: bool, before: seq<Tick>, after: seq<Tick>, deadline: real) {
    before <= after && Waited(error, went, Since(before, after), deadline)
  }

  predicate Waited(error: Option<Error>, went: bool, ticks: seq<Tick>, deadline: real) {
    Answer(error, ticks) && if went then Timely(ticks, deadline) else ticks == [Fault]
  }

  /** So it is a connection error exactly where the socket failed. */
  lemma FailsWithTheSocket(error: Option<Error>, went: bool, before: seq<Tick>, after: seq<Tick>, deadline: real)
    requires InTime(error, went, before, after, deadline)
    requires error.Some? ==> error.value in {ConnectionError, TimedOut} || error.value.CommandFailed?
    ensures error == Some(ConnectionError) <==> Faulted(before, after)
  {
  }

  /** And a wait for an event: None for want of time is no error. */
  predicate EventAnswer(r: Result<Option<Event>>, ticks: seq<Tick>) {
    match r
    case Ok(Some(_)) => EndsTaking(ticks)
    case Ok(None) => EndsLooking(ticks) || TimeUp(ticks)
    case Err(_) => EndsIn(ticks, Fault)
  }

  predicate ReplyAtHead(inbox: seq<string>) {
    inbox != [] && !IsEvent(inbox[0])
  }

  predicate EventAtHead(inbox: seq<string>) {
    inbox != [] && IsEvent(inbox[0])
  }

  function EventsOf(datagrams: seq<string>): (events: seq<Event>)
    ensures |events| == |datagrams|
  {
    if datagrams == [] then []
    else EventsOf(datagrams[..|datagrams| - 1]) + [EventOf(datagrams[|datagrams| - 1])]
  }

  /** The step that opens a closed connection. */
  function Opening(connected: bool): seq<Action> {
    if connected then [] else [Opened]
  }

  /** Where an answered request stands in a log: what came before its command, and all of its run. */
  datatype Place = Place(before: seq<Action>, command: string, during: seq<Action>, datagram: string) {
    function Run(): seq<Action> {
      before + [Sent(command)] + during + [Answered(datagram)]
    }

    function Reply(): string {
      RStrip(datagram, '\n')
    }
  }

  predicate Holds(log: seq<Action>, p: Place) {
    AllWaiting(p.during) && p.Run() <= log
  }

  predicate Precedes(p: Place, q: Place) {
    |p.Run()| <= |q.before|
  }

  /** The log holds the runs at these places, one after another. */
  predicate InLog(places: seq<Place>, log: seq<Action>) {
    && (forall p | p in places :: Holds(log, p))
    && (forall i, j | 0 <= i < j < |places| :: Precedes(places[i], places[j]))
  }

  lemma InLogLonger(places: seq<Place>, log: seq<Action>, longer: seq<Action>)
    requires InLog(places, log) && log <= longer
    ensures InLog(places, longer)
  {
    forall p | p in places ensures Holds(longer, p) {
      assert Holds(log, p);
    }
  }

  lemma InLogMore(places: seq<Place>, log: seq<Action>, p: Place)
    requires InLog(places, log) && log <= p.before && AllWaiting(p.during)
    ensures InLog(places + [p], p.Run())
  {
    assert p.before <= p.Run();
    InLogLonger(places, log, p.Run());
    forall i | 0 <= i < |places| ensures Precedes(places[i], p) {
      assert Holds(log, places[i]);
    }
  }

  /** The run of a request that was not: nothing was sent, or the command was, once, and then given up on. */
  predicate UnansweredRun(log: seq<Action>, connected: bool, command: string, during: seq<Action>, went: bool,
                          after: seq<Action>) {
    var start := log + Opening(connected);
    AllWaiting(during)
    && if went then after == start + [Sent(command)] + during + [GaveUp] else after == log || after == start
  }

  /** The run of a request: an answer at the place p, or none. */
  predicate RequestRun(error: Option<Error>, log: seq<Action>, connected: bool, command: string, p: Place,
                       went: bool, after: seq<Action>) {
    match error
    case None => p.command == command && p.before == log + Opening(connected) && after == p.Run()
    case Some(e) => UnansweredRun(log, connected, command, p.during, went, after) && e in {ConnectionError, TimedOut}
  }

  /** The run of a command, and what it came to: OK when the answer was that, or an error that carries it. */
  predicate CommandRun(log: seq<Action>, connected: bool, command: string, r: Result<()>, went: bool,
                       during: seq<Action>, datagram: string, after: seq<Action>) {
    var reply := RStrip(datagram, '\n');
    if r.Ok? || r.error.CommandFailed? then
      went && AllWaiting(during)
      && after == log + Opening(connected) + [Sent(command)] + during + [Answered(datagram)]
      && r == if Strip(reply) == "OK" then Ok(()) else Err(CommandFailed(command, reply))
    else UnansweredRun(log, connected, command, during, went, after) && r.error in {ConnectionError, TimedOut}
  }

  lemma UnansweredLonger(log: seq<Action>, connected: bool, command: string, during: seq<Action>, went: bool,
                         after: seq<Action>)
    requires UnansweredRun(log, connected, command, during, went, after)
    ensures log <= after
  {
  }

  /** After some turns that left time, one more. */
  lemma Turned(before: seq<Tick>, ticks: seq<Tick>, turn: seq<Tick>, deadline: real) returns (more: seq<Tick>)
    requires Timely(ticks, deadline) && TimeLeft(ticks) && Timely(turn, deadline)
    ensures more == ticks + turn && before + ticks + turn == before + more && Timely(more, deadline)
    ensures turn != [] && TimeLeft(turn) ==> TimeLeft(more)
  {
    more := ticks + turn;
    Associate(before, ticks, turn);
    TimelyMore(ticks, turn, deadline);
  }

  /** How a wait for the time left may end. */
  predicate EndsWait(left: real, end: Tick) {
    match end
    case Left(_, _) => false
    case Looked(wait, found) => wait == left && !found
    case Took(wait) => wait == left
    case Missed(wait) => wait == left
    case Fault => true
  }

  /** A wait for a datagram. */
  lemma LeftThen(left: real, deadline: real, end: Tick) returns (turn: seq<Tick>)
    requires EndsWait(left, end)
    ensures turn == [Left(deadline, left)] + [end] && Timely(turn, deadline) && EndsIn(turn, end)
  {
    turn := [Left(deadline, left)] + [end];
  }

  /** A look that finds one waiting, and then the wait for it. */
  lemma LookedThen(before: seq<Tick>, early: real, left: real, deadline: real, end: Tick)
    returns (turn: seq<Tick>)
    requires EndsWait(left, end)
    ensures before + [Left(deadline, early)] + [Looked(early, true)] + [Left(deadline, left)] + [end] == before + turn
    ensures Timely(turn, deadline) && EndsIn(turn, end)
  {
    turn := [Left(deadline, early)] + [Looked(early, true)] + [Left(deadline, left)] + [end];
  }

  /** A wait that took something, and then read the time. */
  lemma ThenLeft(turn: seq<Tick>, left: real, deadline: real) returns (more: seq<Tick>)
    requires Timely(turn, deadline) && EndsTaking(turn)
    ensures more == turn + [Left(deadline, left)] && more != [] && Timely(more, deadline)
    ensures if left > 0.0 then TimeLeft(more) else TimeUp(more)
  {
    more := turn + [Left(deadline, left)];
    forall k | 0 <= k < |more| ensures TimelyAt(more, deadline, k) {
      assert k < |turn| ==> TimelyAt(turn, deadline, k);
      assert k < |turn| ==> more[k] == turn[k];
    }
  }

  lemma AnswerTurned(error: Option<Error>, ticks: seq<Tick>, turn: seq<Tick>)
    requires Answer(error, turn)
    ensures Answer(error, ticks + turn)
  {
  }

  lemma EventAnswerTurned(r: Result<Option<Event>>, ticks: seq<Tick>, turn: seq<Tick>)
    requires EventAnswer(r, turn)
    ensures EventAnswer(r, ticks + turn)
  {
  }

  class WpaCtrl {
    const transport: CtrlTransport
    const timeout: real
    var attached: bool
    var events: seq<Event>
    ghost var log: seq<Action>
    ghost var state: State

    /** The log is a run that leads to the state, and the fields are those of the state. */
    ghost predicate Follows()
      reads this, transport
    {
      && StateAfter(log) == Some(state)
      && state.connected == transport.connected
      && state.inbox == transport.inbox
      && events == EventsOf(state.stored)
      && (!state.connected ==> state == Fresh(state.session, false))
    }

    /** Everything so far was a run of the connection, and no request is under way. */
    ghost predicate Valid()
      reads this, transport
    {
      Follows() && !state.awaiting
    }

    /** The datagrams queued or still to come: what bounds every loop. */
    ghost function Ahead(): nat
      reads this, transport
    {
      |transport.inbox| + transport.supply
    }

    /** The timeout of a request: the one asked for, or the client's own. */
    function Patience(limit: Option<real>): real {
      if limit.Some? then limit.value else timeout
    }

    constructor (transport: CtrlTransport, timeout: real)
      requires !transport.connected && transport.inbox == []
      ensures Valid() && this.transport == transport && this.timeout == timeout
      ensures !attached && events == [] && log == []
    {
      this.transport, this.timeout := transport, timeout;
      attached, events, log, state := false, [], [], Fresh(0, false);
    }

    /** One more step of the run. */
    ghost method Record(a: Action)
      requires StateAfter(log) == Some(state) && Next(state, a).Some?
      modifies this`log, this`state
      ensures StateAfter(log) == Some(state) && log == old(log) + [a] && Next(old(state), a) == Some(state)
    {
      AfterStep(log, a);
      state := Next(state, a).value;
      log := log + [a];
    }

    ghost method RecordArrivals(datagrams: seq<string>)
      requires StateAfter(log) == Some(state) && (state.connected || datagrams == [])
      modifies this`log, this`state
      ensures StateAfter(log) == Some(state) && log == old(log) + Arrivals(datagrams)
      ensures state == old(state).(inbox := old(state).inbox + datagrams,
                                   arrived := old(state).arrived + datagrams)
    {
      AfterArrivals(log, state, datagrams);
      state := state.(inbox := state.inbox + datagrams, arrived := state.arrived + datagrams);
      log := log + Arrivals(datagrams);
    }

    method Open() returns (r: Result<()>)
      requires Valid()
      modifies this`log, this`state, transport
      ensures Valid()
      ensures r.Ok? ==> transport.connected && log == old(log) + Opening(old(transport.connected))
      ensures r.Err? ==> r.error == ConnectionError && !transport.connected && log == old(log)
      ensures transport.ticks == old(transport.ticks) + if r.Err? then [Fault] else []
      ensures transport.clock == old(transport.clock) && transport.supply == old(transport.supply)
      ensures transport.inbox == if old(transport.connected) then old(transport.inbox) else []
      ensures transport.outbox == if old(transport.connected) then old(transport.outbox) else []
    {
      r := transport.Open();
      if old(transport.connected) {
        assert log + [] == log;
      } else if r.Ok? {
        Record(Opened);
      }
    }

    method Close()
      requires Valid()
      modifies this, transport
      ensures Valid() && !attached && events == [] && !transport.connected
      ensures log == old(log) + [ClosedDown]
    {
      transport.Close();
      Record(ClosedDown);
      attached := false;
      events := [];
    }

    /** Sends the command and returns the first reply that arrives, events being set aside until then.
        went says whether the command was sent at all. With something still queued it times out only right
        after setting an event aside; a reply at the head of the queue is returned. */
    method Request(command: string, limit: Option<real>)
      returns (r: Result<string>, went: bool, ghost during: seq<Action>, ghost datagram: string)
      requires Valid()
      modifies this`events, this`log, this`state, transport
      ensures Valid() && AllWaiting(during)
      ensures var start := old(log) + Opening(old(transport.connected));
        if went then log == start + [Sent(command)] + during + [if r.Ok? then Answered(datagram) else GaveUp]
        else r == Err(ConnectionError) && (log == old(log) || log == start)
      ensures match r
        case Ok(reply) => went && reply == RStrip(datagram, '\n')
        case Err(TimedOut) =>
          went && transport.clock >= old(transport.clock) + Patience(limit)
          && Exhausted(during, SetAside, transport.inbox)
        case Err(e) => e == ConnectionError
      ensures old(transport.connected) && ReplyAtHead(old(transport.inbox)) ==>
        r == Err(ConnectionError) || (r.Ok? && datagram == old(transport.inbox)[0])
      ensures InTime(ErrorOf(r), went, old(transport.ticks), transport.ticks, old(transport.clock) + Patience(limit))
      ensures transport.outbox
           == (if old(transport.connected) then old(transport.outbox) else []) + (if went then [command] else [])
    {
      var patience := Patience(limit);
      during, datagram := [], "";
      ghost var before := transport.ticks;
      went := SendCommand(command);
      if !went {
        SinceIs(before, [Fault]);
        return Err(ConnectionError), went, during, datagram;
      }
      var deadline := transport.clock + patience;
      ghost var ticks;
      r, during, datagram, ticks := AwaitReply(deadline);
      SinceIs(before, ticks);
    }

    /** A request with the default timeout, told by its place in the log. */
    method RequestAt(command: string) returns (r: Result<string>, ghost p: Place, ghost went: bool)
      requires Valid()
      modifies this`events, this`log, this`state, transport
      ensures Valid() && AllWaiting(p.during) && old(log) <= log
      ensures RequestRun(ErrorOf(r), old(log), old(transport.connected), command, p, went, log)
      ensures r.Ok? ==> r.value == p.Reply()
      ensures InTime(ErrorOf(r), went, old(transport.ticks), transport.ticks, old(transport.clock) + timeout)
    {
      ghost var during, datagram;
      ghost var before, connected := log, transport.connected;
      r, went, during, datagram := Request(command, None);
      p := Place(before + Opening(connected), command, during, datagram);
      if r.Err? {
        UnansweredLonger(before, connected, command, during, went, log);
      }
    }

    /** Opens the connection if need be and sends the command, unless either fails. */
    method SendCommand(command: string) returns (went: bool)
      requires Valid()
      modifies this`log, this`state, transport
      ensures Follows() && transport.clock == old(transport.clock)
      ensures var start := old(log) + Opening(old(transport.connected));
        if went then state.awaiting && transport.connected && log == start + [Sent(command)]
        else Valid() && (log == old(log) || log == start)
      ensures transport.inbox == if old(transport.connected) then old(transport.inbox) else []
      ensures transport.outbox
           == (if old(transport.connected) then old(transport.outbox) else []) + (if went then [command] else [])
      ensures transport.ticks == old(transport.ticks) + if went then [] else [Fault]
    {
      ghost var start := log + Opening(transport.connected);
      var ready := Open();
      if ready.Err? {
        return false;
      }
      assert log == start && Follows() && !state.awaiting && state.connected;
      var sent := transport.Send(command);
      if sent.Err? {
        return false;
      }
      Record(Sent(command));
      went := true;
    }

    /** The next datagram, what arrived meanwhile being recorded; the state still has it queued. */
    method Take(left: real) returns (r: Result<string>, ghost arrivals: seq<string>)
      requires Follows() && transport.connected
      modifies this`log, this`state, transport
      ensures StateAfter(log) == Some(state) && log == old(log) + Arrivals(arrivals)
      ensures state == old(state).(inbox := state.inbox, arrived := state.arrived)
      ensures r.Ok? && old(transport.inbox) != [] ==> r.value == old(transport.inbox)[0]
      ensures transport.connected && transport.outbox == old(transport.outbox)
      ensures transport.clock >= old(transport.clock)
      ensures match r
        case Ok(datagram) =>
          state.inbox == [datagram] + transport.inbox
          && Ahead() < old(Ahead())
        case Err(TimedOut) =>
          Follows() && old(transport.inbox) == transport.inbox == [] && transport.clock >= old(transport.clock) + left
        case Err(e) => e == ConnectionError && Follows()
      ensures Ahead() <= old(Ahead())
      ensures transport.ticks
           == old(transport.ticks) + [if r.Ok? then Took(left) else if r.error == TimedOut then Missed(left) else Fault]
    {
      r, arrivals := transport.Receive(left);
      RecordArrivals(arrivals);
      assert r.Ok? ==> ([r.value] + transport.inbox)[0] == r.value;
    }

    /** A command whose reply must be OK; any other reply is an error that carries it. */
    method Command(command: string, limit: Option<real>)
      returns (r: Result<()>, ghost went: bool, ghost during: seq<Action>, ghost datagram: string)
      requires Valid()
      modifies this`events, this`log, this`state, transport
      ensures Valid() && CommandRun(old(log), old(transport.connected), command, r, went, during, datagram, log)
      ensures r == Err(TimedOut) ==>
        Exhausted(during, SetAside, transport.inbox)
        && transport.clock >= old(transport.clock) + Patience(limit)
      ensures InTime(ErrorOf(r), went, old(transport.ticks), transport.ticks, old(transport.clock) + Patience(limit))
    {
      var reply;
      reply, went, during, datagram := Request(command, limit);
      match reply {
        case Err(e) => r := Err(e);
        case Ok(text) =>
          if Strip(text) != "OK" {
            r := Err(CommandFailed(command, text));
          } else {
            r := Ok(());
          }
      }
    }

    /** attached follows the daemon's word: it is set when ATTACH is answered OK, and not otherwise. */
    method Attach()
      returns (r: Result<()>, ghost went: bool, ghost during: seq<Action>, ghost datagram: string)
      requires Valid()
      modifies this`attached, this`events, this`log, this`state, transport
      ensures Valid() && attached == (old(attached) || r.Ok?)
      ensures CommandRun(old(log), old(transport.connected), "ATTACH", r, went, during, datagram, log)
      ensures r == Err(TimedOut) ==> transport.clock >= old(transport.clock) + Patience(None)
      ensures InTime(ErrorOf(r), went, old(transport.ticks), transport.ticks, old(transport.clock) + Patience(None))
    {
      r, went, during, datagram := Command("ATTACH", None);
      if r.Ok? {
        attached := true;
      }
    }

    method Detach()
      returns (r: Result<()>, ghost went: bool, ghost during: seq<Action>, ghost datagram: string)
      requires Valid()
      modifies this`attached, this`events, this`log, this`state, transport
      ensures Valid() && attached == (old(attached) && r.Err?)
      ensures CommandRun(old(log), old(transport.connected), "DETACH", r, went, during, datagram, log)
      ensures r == Err(TimedOut) ==> transport.clock >= old(transport.clock) + Patience(None)
      ensures InTime(ErrorOf(r), went, old(transport.ticks), transport.ticks, old(transport.clock) + Patience(None))
    {
      r, went, during, datagram := Command("DETACH", None);
      if r.Ok? {
        attached := false;
      }
    }

    /** The loop of a request that has been sent. */
    method AwaitReply(deadline: real)
      returns (r: Result<string>, ghost during: seq<Action>, ghost datagram: string, ghost ticks: seq<Tick>)
      requires Follows() && state.awaiting && transport.connected
      modifies this`events, this`log, this`state, transport
      ensures Valid() && AllWaiting(during)
      ensures transport.outbox == old(transport.outbox)
      ensures match r
        case Ok(reply) => log == old(log) + during + [Answered(datagram)] && reply == RStrip(datagram, '\n')
        case Err(e) =>
          log == old(log) + during + [GaveUp]
          && (e == ConnectionError
              || (e == TimedOut && transport.clock >= deadline && Exhausted(during, SetAside, transport.inbox)))
      ensures ReplyAtHead(old(transport.inbox)) ==>
        r == Err(ConnectionError) || (r.Ok? && datagram == old(transport.inbox)[0])
      ensures transport.ticks == old(transport.ticks) + ticks && Answer(ErrorOf(r), ticks) && Timely(ticks, deadline)
    {
      during, ticks := [], [];
      assert log == log + during;
      while true
        invariant AllWaiting(during) && log == old(log) + during
        invariant ReplyAtHead(old(transport.inbox)) ==> transport.inbox == old(transport.inbox)
        invariant Follows() && state.awaiting && transport.connected
        invariant transport.outbox == old(transport.outbox)
        invariant transport.ticks == old(transport.ticks) + ticks && Timely(ticks, deadline) && TimeLeft(ticks)
        decreases Ahead()
      {
        var got;
        ghost var steps, turn;
        got, steps, datagram, turn := ReplyTurn(deadline);
        WaitingGrows(old(log), during, steps);
        during := during + steps;
        ghost var earlier := ticks;
        ticks := Turned(old(transport.ticks), earlier, turn, deadline);
        match got {
          case Err(e) =>
            r := Err(e);
            AnswerTurned(ErrorOf(r), earlier, turn);
            return;
          case Ok(Some(reply)) =>
            r := Ok(RStrip(reply, '\n'));
            AnswerTurned(ErrorOf(r), earlier, turn);
            return;
          case Ok(None) =>
        }
      }
    }

    /** One turn of that loop: the next datagram if it is a reply. An event is set aside, and then there is more to
        do if there is time. */
    method ReplyTurn(deadline: real)
      returns (r: Result<Option<string>>, ghost steps: seq<Action>, ghost datagram: string, ghost turn: seq<Tick>)
      requires Follows() && state.awaiting && transport.connected
      modifies this`events, this`log, this`state, transport
      ensures AllWaiting(steps) && transport.outbox == old(transport.outbox)
      ensures match r
        case Ok(Some(reply)) =>
          Valid() && log == old(log) + steps + [Answered(datagram)] && reply == datagram
          && (old(transport.inbox) != [] ==> reply == old(transport.inbox)[0])
        case Ok(None) =>
          Follows() && state.awaiting && transport.connected && log == old(log) + steps
          && !ReplyAtHead(old(transport.inbox)) && Ahead() < old(Ahead())
        case Err(e) =>
          Valid() && log == old(log) + steps + [GaveUp]
          && (e == ConnectionError
              || (e == TimedOut && !ReplyAtHead(old(transport.inbox)) && transport.clock >= deadline
                  && Exhausted(steps, SetAside, transport.inbox)))
      ensures transport.ticks == old(transport.ticks) + turn && Timely(turn, deadline)
      ensures if r.Ok? && r.value.None? then turn != [] && TimeLeft(turn) else Answer(ErrorOf(r), turn)
    {
      var left;
      r, steps, datagram, turn := TakeReply(deadline);
      if r.Err? {
        RecordGaveUp();
        return;
      }
      if r.value.Some? {
        return;
      }
      left := transport.Remaining(deadline);
      turn := ThenLeft(turn, left, deadline);
      if left <= 0.0 {
        RecordGaveUp();
        return Err(TimedOut), steps, datagram, turn;
      }
    }

    /** The next datagram if it is a reply; an event is set aside. */
    method TakeReply(deadline: real)
      returns (r: Result<Option<string>>, ghost steps: seq<Action>, ghost datagram: string, ghost turn: seq<Tick>)
      requires Follows() && state.awaiting && transport.connected
      modifies this`events, this`log, this`state, transport
      ensures AllWaiting(steps) && transport.connected && transport.outbox == old(transport.outbox)
      ensures match r
        case Ok(Some(reply)) =>
          Valid() && log == old(log) + steps + [Answered(datagram)] && reply == datagram
          && (old(transport.inbox) != [] ==> reply == old(transport.inbox)[0])
        case Ok(None) =>
          Follows() && state.awaiting && log == old(log) + steps && steps != [] && steps[|steps| - 1] == SetAside
          && !ReplyAtHead(old(transport.inbox))
          && Ahead() < old(Ahead())
        case Err(TimedOut) =>
          Follows() && state.awaiting && log == old(log) + steps && old(transport.inbox) == transport.inbox == []
          && transport.clock >= deadline
        case Err(e) => e == ConnectionError && Follows() && state.awaiting && log == old(log) + steps
      ensures transport.ticks == old(transport.ticks) + turn && Timely(turn, deadline)
      ensures if r.Ok? then EndsTaking(turn) else if r.error == TimedOut then EndsMissing(turn) else EndsIn(turn, Fault)
    {
      var left := transport.Remaining(deadline);
      var got, arrivals := Take(left);
      steps, datagram := Arrivals(arrivals), "";
      ghost var end := if got.Ok? then Took(left) else if got.error == TimedOut then Missed(left) else Fault;
      turn := LeftThen(left, deadline, end);
      if got.Err? {
        return Err(got.error), steps, datagram, turn;
      }
      datagram := got.value;
      WaitingGrows(old(log), steps, [SetAside]);
      if IsEvent(got.value) {
        SetEventAside(got.value);
        return Ok(None), steps + [SetAside], datagram, turn;
      }
      RecordAnswer(got.value);
      r := Ok(Some(got.value));
    }

    /** True if an event is set aside or a datagram is waiting. */
    method Pending(wait: real) returns (r: Result<bool>, ghost arrivals: seq<string>)
      requires Valid()
      modifies this`log, this`state, transport
      ensures Valid() && log == old(log) + Arrivals(arrivals)
      ensures transport.connected == old(transport.connected) && transport.outbox == old(transport.outbox)
      ensures transport.clock >= old(transport.clock) && |arrivals| + transport.supply == old(transport.supply)
      ensures transport.inbox == old(transport.inbox) + arrivals
      ensures events != [] ==> r == Ok(true) && arrivals == []
      ensures match r
        case Ok(waiting) =>
          (waiting <==> events != [] || transport.inbox != [])
          && (waiting || transport.clock >= old(transport.clock) + wait)
        case Err(e) => e == ConnectionError
      ensures transport.ticks
           == old(transport.ticks) + if events != [] then [] else if r.Ok? then [Looked(wait, r.value)] else [Fault]
    {
      if events != [] {
        assert log + [] == log;
        return Ok(true), [];
      }
      r, arrivals := transport.Pending(wait);
      RecordArrivals(arrivals);
    }

    /** The next event: one set aside, or else the first to come within the time. Replies that come
        before it are thrown away. An event at the head of the queue is returned; None leaves something
        queued only right after a reply was thrown away. */
    method NextEvent(wait: real)
      returns (r: Result<Option<Event>>, ghost skipped: seq<Action>, ghost datagram: string)
      requires Valid()
      modifies this`events, this`log, this`state, transport
      ensures Valid() && AllSkipping(skipped) && transport.outbox == old(transport.outbox)
      ensures old(events) != [] ==>
        && r == Ok(Some(old(events)[0])) && events == old(events)[1..]
        && skipped == [] && log == old(log) + [TookStored(datagram)] && old(events)[0] == EventOf(datagram)
      ensures old(events) == [] ==> events == [] && match r
        case Ok(Some(event)) =>
          log == old(log) + skipped + [TookFresh(datagram)] && event == EventOf(datagram)
        case Ok(None) =>
          log == old(log) + skipped && transport.clock >= old(transport.clock) + wait
          && Exhausted(skipped, Discarded, transport.inbox)
        case Err(e) => log == old(log) + skipped && e == ConnectionError
      ensures old(events) == [] && EventAtHead(old(transport.inbox)) ==>
        r == Err(ConnectionError) || (r.Ok? && r.value.Some? && datagram == old(transport.inbox)[0])
      ensures r.Ok? && (old(events) != [] || old(transport.inbox) != []) ==>
        |events| + Ahead() < old(|events| + Ahead())
      ensures old(events) != [] ==> transport.ticks == old(transport.ticks)
      ensures old(transport.ticks) <= transport.ticks && var ticks := Since(old(transport.ticks), transport.ticks);
        old(events) == [] ==> EventAnswer(r, ticks) && Timely(ticks, old(transport.clock) + wait)
    {
      if events != [] {
        var event;
        event, datagram := TakeStored();
        return Ok(Some(event)), [], datagram;
      }
      ghost var before := transport.ticks;
      ghost var ticks;
      r, skipped, datagram, ticks := AwaitEvent(transport.clock + wait);
      SinceIs(before, ticks);
    }

    method TakeStored() returns (event: Event, ghost datagram: string)
      requires Valid() && events != []
      modifies this`events, this`log, this`state
      ensures Valid() && event == old(events)[0] == EventOf(datagram) && events == old(events)[1..]
      ensures log == old(log) + [TookStored(datagram)]
    {
      datagram := state.stored[0];
      EventsOfFirst(state.stored);
      event := events[0];
      events := events[1..];
      RecordStored(datagram);
    }

    ghost method RecordStored(datagram: string)
      requires StateAfter(log) == Some(state) && !state.awaiting && state.connected == transport.connected
      requires state.inbox == transport.inbox && (state.connected || state == Fresh(state.session, false))
      requires state.stored != [] && datagram == state.stored[0] && events == EventsOf(state.stored[1..])
      modifies this`log, this`state
      ensures Valid() && log == old(log) + [TookStored(datagram)]
    {
      Record(TookStored(datagram));
    }

    /** The loop of next_event when nothing is set aside. */
    method AwaitEvent(deadline: real)
      returns (r: Result<Option<Event>>, ghost skipped: seq<Action>, ghost datagram: string,
               ghost ticks: seq<Tick>)
      requires Valid() && events == []
      modifies this`events, this`log, this`state, transport
      ensures Valid() && AllSkipping(skipped) && transport.outbox == old(transport.outbox)
      ensures events == []
      ensures match r
        case Ok(Some(event)) =>
          log == old(log) + skipped + [TookFresh(datagram)] && event == EventOf(datagram)
        case Ok(None) =>
          log == old(log) + skipped && transport.clock >= deadline && Exhausted(skipped, Discarded, transport.inbox)
        case Err(e) => log == old(log) + skipped && e == ConnectionError
      ensures EventAtHead(old(transport.inbox)) ==>
        r == Err(ConnectionError) || (r.Ok? && r.value.Some? && datagram == old(transport.inbox)[0])
      ensures Ahead() <= old(Ahead())
      ensures r.Ok? && old(transport.inbox) != [] ==> Ahead() < old(Ahead())
      ensures transport.ticks == old(transport.ticks) + ticks && EventAnswer(r, ticks) && Timely(ticks, deadline)
    {
      skipped, ticks := [], [];
      assert log == log + skipped;
      ghost var queued, ahead := transport.inbox, Ahead();
      while true
        invariant Valid() && events == [] && AllSkipping(skipped) && log == old(log) + skipped
        invariant Ahead() <= ahead
        invariant transport.inbox == queued || (Ahead() < ahead && !EventAtHead(queued))
        invariant transport.outbox == old(transport.outbox)
        invariant transport.ticks == old(transport.ticks) + ticks && Timely(ticks, deadline) && TimeLeft(ticks)
        decreases Ahead()
      {
        var got, more;
        ghost var steps, turn;
        got, more, steps, datagram, turn := EventTurn(deadline);
        SkippingGrows(old(log), skipped, steps);
        skipped := skipped + steps;
        ghost var earlier := ticks;
        ticks := Turned(old(transport.ticks), earlier, turn, deadline);
        if !more {
          EventAnswerTurned(got, earlier, turn);
          return got, skipped, datagram, ticks;
        }
      }
    }

    /** One turn of that loop: the next event, or that none came in time. After a reply that is thrown away there is
        more to do if there is time. */
    method EventTurn(deadline: real)
      returns (r: Result<Option<Event>>, more: bool, ghost steps: seq<Action>, ghost datagram: string,
               ghost turn: seq<Tick>)
      requires Valid() && events == []
      modifies this`events, this`log, this`state, transport
      ensures Valid() && AllSkipping(steps) && events == [] && transport.outbox == old(transport.outbox)
      ensures Ahead() <= old(Ahead())
      ensures more ==> r == Ok(None) && Ahead() < old(Ahead())
      ensures match r
        case Ok(Some(event)) =>
          log == old(log) + steps + [TookFresh(datagram)] && event == EventOf(datagram)
          && Ahead() < old(Ahead()) && (old(transport.inbox) != [] ==> datagram == old(transport.inbox)[0])
        case Ok(None) =>
          log == old(log) + steps && !EventAtHead(old(transport.inbox))
          && (old(transport.inbox) != [] ==> Ahead() < old(Ahead()))
          && (!more ==> transport.clock >= deadline && Exhausted(steps, Discarded, transport.inbox))
        case Err(e) => log == old(log) + steps && e == ConnectionError
      ensures transport.ticks == old(transport.ticks) + turn && Timely(turn, deadline)
      ensures if more then turn != [] && TimeLeft(turn)
        else EventAnswer(r, turn)
    {
      r, more, steps, datagram, turn := TakeEvent(deadline);
      if !more {
        return;
      }
      var left := transport.Remaining(deadline);
      turn := ThenLeft(turn, left, deadline);
      more := left > 0.0;
    }

    /** The next event, or that none came in time, or a reply thrown away, after which there is more to do. */
    method TakeEvent(deadline: real)
      returns (r: Result<Option<Event>>, more: bool, ghost steps: seq<Action>, ghost datagram: string,
               ghost turn: seq<Tick>)
      requires Valid() && events == []
      modifies this`events, this`log, this`state, transport
      ensures Valid() && AllSkipping(steps) && events == [] && transport.outbox == old(transport.outbox)
      ensures Ahead() <= old(Ahead())
      ensures more ==> r == Ok(None)
      ensures match r
        case Ok(Some(event)) =>
          log == old(log) + steps + [TookFresh(datagram)] && event == EventOf(datagram)
          && Ahead() < old(Ahead()) && (old(transport.inbox) != [] ==> datagram == old(transport.inbox)[0])
        case Ok(None) =>
          log == old(log) + steps && !EventAtHead(old(transport.inbox))
          && (if more then Ahead() < old(Ahead()) && steps != [] && steps[|steps| - 1] == Discarded
              else old(transport.inbox) == transport.inbox == [] && transport.clock >= deadline)
        case Err(e) => log == old(log) + steps && e == ConnectionError
      ensures transport.ticks == old(transport.ticks) + turn && Timely(turn, deadline)
      ensures if r.Err? then EndsIn(turn, Fault)
        else if more || r.value.Some? then EndsTaking(turn)
        else EndsLooking(turn)
    {
      var got;
      got, steps, turn := TakeWaiting(deadline);
      more, datagram := false, "";
      if got.Err? {
        return Err(got.error), false, steps, datagram, turn;
      }
      if got.value.None? {
        return Ok(None), false, steps, datagram, turn;
      }
      datagram := got.value.value;
      if IsEvent(got.value.value) {
        var event := ParseEvent(got.value.value);
        RecordFresh(got.value.value);
        return Ok(Some(event)), false, steps, datagram, turn;
      }
      RecordDiscarded(got.value.value);
      SkippingGrows(old(log), steps, [Discarded]);
      r, more, steps := Ok(None), true, steps + [Discarded];
    }

    /** The next datagram if one comes before the deadline; the state still has it queued. */
    method TakeWaiting(deadline: real)
      returns (r: Result<Option<string>>, ghost arrivals: seq<Action>, ghost turn: seq<Tick>)
      requires Valid() && events == []
      modifies this`log, this`state, transport
      ensures StateAfter(log) == Some(state) && log == old(log) + arrivals && AllSkipping(arrivals)
      ensures transport.outbox == old(transport.outbox) && !state.awaiting && EventsOf(state.stored) == []
      ensures match r
        case Ok(Some(datagram)) =>
          state.inbox == [datagram] + transport.inbox && state.connected && transport.connected
          && (old(transport.inbox) != [] ==> datagram == old(transport.inbox)[0])
          && Ahead() < old(Ahead())
        case Ok(None) =>
          Valid() && transport.clock >= deadline && old(transport.inbox) == transport.inbox == []
        case Err(e) => Valid() && e == ConnectionError
      ensures Ahead() <= old(Ahead())
      ensures transport.ticks == old(transport.ticks) + turn && Timely(turn, deadline)
      ensures if r.Err? then EndsIn(turn, Fault) else if r.value.Some? then EndsTaking(turn) else EndsLooking(turn)
    {
      var left := transport.Remaining(deadline);
      var waiting, early := Pending(left);
      arrivals := Arrivals(early);
      ghost var first := left;
      turn := [];
      if waiting.Err? {
        turn := LeftThen(left, deadline, Fault);
        return Err(waiting.error), arrivals, turn;
      }
      if !waiting.value {
        turn := LeftThen(left, deadline, Looked(left, false));
        return Ok(None), arrivals, turn;
      }
      left := transport.Remaining(deadline);
      var got, late := Take(left);
      turn := LookedThen(old(transport.ticks), first, left, deadline, if got.Ok? then Took(left) else Fault);
      SkippingGrows(old(log), arrivals, Arrivals(late));
      arrivals := arrivals + Arrivals(late);
      if got.Err? {
        return Err(got.error), arrivals, turn;
      }
      r := Ok(Some(got.value));
    }

    ghost method RecordFresh(message: string)
      requires StateAfter(log) == Some(state) && !state.awaiting && state.connected && transport.connected
      requires state.inbox == [message] + transport.inbox && IsEvent(message)
      requires events == EventsOf(state.stored) == []
      modifies this`log, this`state
      ensures Valid() && log == old(log) + [TookFresh(message)]
    {
      Record(TookFresh(message));
    }

    ghost method RecordDiscarded(message: string)
      requires StateAfter(log) == Some(state) && !state.awaiting && state.connected && transport.connected
      requires state.inbox == [message] + transport.inbox && !IsEvent(message)
      requires events == EventsOf(state.stored) == []
      modifies this`log, this`state
      ensures Valid() && log == old(log) + [Discarded]
    {
      Record(Discarded);
    }

    ghost method RecordGaveUp()
      requires Follows() && state.awaiting
      modifies this`log, this`state
      ensures Valid() && log == old(log) + [GaveUp]
    {
      Record(GaveUp);
    }

    ghost method RecordAnswer(reply: string)
      requires StateAfter(log) == Some(state) && state.awaiting && state.connected && transport.connected
      requires state.inbox == [reply] + transport.inbox && !IsEvent(reply)
      requires events == EventsOf(state.stored)
      modifies this`log, this`state
      ensures Valid() && log == old(log) + [Answered(reply)]
    {
      Record(Answered(reply));
    }

    method SetEventAside(message: string)
      requires StateAfter(log) == Some(state) && state.awaiting && state.connected && transport.connected
      requires state.inbox == [message] + transport.inbox && IsEvent(message)
      requires events == EventsOf(state.stored)
      modifies this`events, this`log, this`state
      ensures Follows() && state.awaiting && log == old(log) + [SetAside]
    {
      Record(SetAside);
      var event := ParseEvent(message);
      events := events + [event];
      EventsOfLast(old(state).stored, message);
    }
  }

  lemma EventsOfFirst(datagrams: seq<string>)
    requires datagrams != []
    ensures EventsOf(datagrams) == [EventOf(datagrams[0])] + EventsOf(datagrams[1..])
  {
    var first, rest := datagrams[0], datagrams[1..];
    assert datagrams == [first] + rest && [] + [first] == [first];
    EventsOfAppend([first], rest);
    EventsOfLast([], first);
  }

  lemma EventsOfLast(datagrams: seq<string>, d: string)
    ensures EventsOf(datagrams + [d]) == EventsOf(datagrams) + [EventOf(d)]
  {
    assert (datagrams + [d])[..|datagrams|] == datagrams;
  }

  lemma {:induction false} EventsOfAppend(a: seq<string>, b: seq<string>)
    ensures EventsOf(a + b) == EventsOf(a) + EventsOf(b)
  {
    if b == [] {
      assert a + b == a;
    } else {
      var n := |b| - 1;
      assert a + b == a + b[..n] + [b[n]];
      EventsOfLast(a + b[..n], b[n]);
      EventsOfAppend(a, b[..n]);
      Associate(EventsOf(a), EventsOf(b[..n]), [EventOf(b[n])]);
    }
  }

  // ----- what holds of a client after any calls in any order

  lemma ParsedConserved(s: State)
    requires Conserved(s)
    ensures EventsOf(s.delivered) + EventsOf(s.stored) + EventsOf(EventsIn(s.inbox)) == EventsOf(EventsIn(s.arrived))
  {
    EventsOfAppend(s.delivered, s.stored);
    EventsOfAppend(s.delivered + s.stored, EventsIn(s.inbox));
  }

  /** No event is lost, repeated or reordered: since the connection was opened, the events handed out, those
      set aside and those among the datagrams still queued are the events that arrived, in their order. */
  lemma ClientConservesEvents(c: WpaCtrl)
    requires c.Valid()
    ensures EventsOf(c.state.delivered) + c.events + EventsOf(EventsIn(c.transport.inbox))
         == EventsOf(EventsIn(c.state.arrived))
  {
    EventsAreConserved(c.log);
    ParsedConserved(c.state);
  }

  lemma BeforeStep(log: seq<Action>, a: Action)
    requires StateAfter(log + [a]).Some?
    ensures StateAfter(log).Some? && Next(StateAfter(log).value, a) == StateAfter(log + [a])
  {
    AfterStep(log, a);
  }

  predicate DistinctAnswers(answers: Answers) {
    forall i, j | 0 <= i < j < |answers.texts| :: answers.texts[i] != answers.texts[j]
  }

  lemma OwnAnswer(answers: Answers, sent: nat, debt: nat, reply: string)
    requires AnswerAt(answers, sent - debt, reply)
    ensures DistinctAnswers(answers) ==> (AnswerAt(answers, sent, reply) <==> debt == 0)
  {
  }

  lemma StateBeforeAnswer(before: seq<Action>, s: State, command: string, during: seq<Action>, datagram: string,
                          answers: Answers) returns (t: State)
    requires StateAfter(before) == Some(s) && AllWaiting(during)
    requires StateAfter(before + [Sent(command)] + during + [Answered(datagram)]).Some?
    requires Honest(before + [Sent(command)] + during + [Answered(datagram)], answers)
    ensures Requesting(before, s, command, during, t) && Next(t, Answered(datagram)).Some?
    ensures Honest(before + [Sent(command)] + during, answers)
  {
    var waited := before + [Sent(command)] + during;
    BeforeStep(waited, Answered(datagram));
    HonestBefore(waited, [Answered(datagram)], answers);
    t := StateAfter(waited).value;
  }

  /** Reply correspondence for the run of any answered request: with a daemon that answers each command once
      and in order, the reply answers the command sent debt commands before its own. Where answers differ
      from command to command it is the command's own answer exactly when the debt is zero. */
  lemma ReplyCorrespondence(before: seq<Action>, s: State, command: string, during: seq<Action>,
                            datagram: string, answers: Answers)
    requires StateAfter(before) == Some(s) && s.session == answers.session && AllWaiting(during)
    requires StateAfter(before + [Sent(command)] + during + [Answered(datagram)]).Some?
    requires Honest(before + [Sent(command)] + during + [Answered(datagram)], answers)
    ensures 0 <= Debt(s) && AnswerAt(answers, s.sent - Debt(s), datagram)
    ensures DistinctAnswers(answers) ==> (AnswerAt(answers, s.sent, datagram) <==> Debt(s) == 0)
  {
    var t := StateBeforeAnswer(before, s, command, during, datagram, answers);
    RequestAndReply(before, s, command, during, t, datagram, answers);
    OwnAnswer(answers, s.sent, Debt(s), datagram);
  }
}
