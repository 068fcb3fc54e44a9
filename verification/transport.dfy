/** wpa_ctrl/transport.py: the datagram socket, as a queue filled by a daemon that may do anything. */
module Transport {
  import opened Wrappers

  /** What a caller can tell of its waiting, and how long it was ready to wait: the time it read, a look at whether
      a datagram waits, a datagram taken, a wait that ended without one, and an operation of the socket that
      failed. */
  datatype Tick =
    | Left(deadline: real, left: real)
    | Looked(wait: real, found: bool)
    | Took(wait: real)
    | Missed(wait: real)
    | Fault

  /** The ticks from one point to a later one. */
  function Since(before: seq<Tick>, after: seq<Tick>): (ticks: seq<Tick>)
    ensures before <= after ==> after == before + ticks
  {
    if |before| <= |after| then after[|before|..] else []
  }

  lemma SinceIs(before: seq<Tick>, ticks: seq<Tick>)
    ensures Since(before, before + ticks) == ticks
  {
  }

  predicate EndsIn(ticks: seq<Tick>, end: Tick) {
    ticks != [] && ticks[|ticks| - 1] == end
  }

  predicate EndsTaking(ticks: seq<Tick>) {
    ticks != [] && ticks[|ticks| - 1].Took?
  }

  predicate EndsMissing(ticks: seq<Tick>) {
    ticks != [] && ticks[|ticks| - 1].Missed?
  }

  predicate EndsLooking(ticks: seq<Tick>) {
    ticks != [] && ticks[|ticks| - 1].Looked? && !ticks[|ticks| - 1].found
  }

  /** The socket failed, and that was the last thing that happened. */
  predicate Faulted(before: seq<Tick>, after: seq<Tick>) {
    before <= after && EndsIn(Since(before, after), Fault)
  }

  lemma FaultedLater(before: seq<Tick>, between: seq<Tick>, after: seq<Tick>)
    requires before <= between <= after && !Faulted(before, between)
    ensures before <= after && (Faulted(before, after) <==> Faulted(between, after))
  {
    assert after[..|between|] == between && between[..|before|] == before;
    assert after[..|before|] == before;
    if between != after {
      assert Since(before, after)[|after| - |before| - 1] == after[|after| - 1];
    }
  }

  /** The wait was for just the time that had been read right before it. */
  predicate WaitsLeft(ticks: seq<Tick>, wait: real, k: nat)
    requires k < |ticks|
  {
    k > 0 && ticks[k - 1].Left? && ticks[k - 1].left == wait
  }

  predicate TimelyAt(ticks: seq<Tick>, deadline: real, k: nat)
    requires k < |ticks|
  {
    match ticks[k]
    case Left(d, _) => d == deadline
    case Looked(wait, found) => WaitsLeft(ticks, wait, k) && (found || k + 1 == |ticks|)
    case Took(wait) =>
      WaitsLeft(ticks, wait, k)
      && (k + 1 == |ticks| || (ticks[k + 1].Left? && (ticks[k + 1].left > 0.0 || k + 2 == |ticks|)))
    case Missed(wait) => WaitsLeft(ticks, wait, k) && k + 1 == |ticks|
    case Fault => k + 1 == |ticks|
  }

  /** A wait that keeps its deadline: it never waits but for the time that is left, reads the time after each
      datagram, goes on only if some is left, and ends with the first wait that misses or fails. */
  predicate Timely(ticks: seq<Tick>, deadline: real) {
    forall k | 0 <= k < |ticks| :: TimelyAt(ticks, deadline, k)
  }

  predicate TimeLeft(ticks: seq<Tick>) {
    ticks == [] || (ticks[|ticks| - 1].Left? && ticks[|ticks| - 1].left > 0.0)
  }

  /** Time was up after a datagram. */
  predicate TimeUp(ticks: seq<Tick>) {
    |ticks| >= 2 && ticks[|ticks| - 2].Took? && ticks[|ticks| - 1].Left? && ticks[|ticks| - 1].left <= 0.0
  }

  lemma TimelyMore(ticks: seq<Tick>, more: seq<Tick>, deadline: real)
    requires Timely(ticks, deadline) && TimeLeft(ticks) && Timely(more, deadline)
    ensures Timely(ticks + more, deadline)
  {
    var all := ticks + more;
    forall k | 0 <= k < |all| ensures TimelyAt(all, deadline, k) {
      if k < |ticks| {
        assert TimelyAt(ticks, deadline, k);
      } else {
        assert TimelyAt(more, deadline, k - |ticks|);
      }
    }
  }

  /** The daemon and the clock move whenever the client waits; Elapse is the only place they do. How many
      datagrams are still to come in the run is finite but unknown. */
  class CtrlTransport {
    var connected: bool
    var inbox: seq<string>
    var outbox: seq<string>
    var clock: real
    var supply: nat
    ghost var ticks: seq<Tick>

    constructor (supply: nat)
      ensures !connected && inbox == [] && outbox == [] && this.supply == supply && ticks == []
    {
      connected, inbox, outbox, clock := false, [], [], 0.0;
      this.supply, ticks := supply, [];
    }

    /** Some time passes, and some datagrams arrive. */
    method Elapse() returns (ghost arrivals: seq<string>)
      modifies `inbox, `clock, `supply
      ensures connected == old(connected) && outbox == old(outbox) && clock >= old(clock)
      ensures inbox == old(inbox) + arrivals && |arrivals| + supply == old(supply)
      ensures !connected ==> arrivals == []
    {
      var wait: real := *;
      if wait > 0.0 {
        clock := clock + wait;
      }
      arrivals := [];
      var more: bool := *;
      while connected && supply > 0 && more
        invariant connected == old(connected) && outbox == old(outbox) && clock >= old(clock)
        invariant inbox == old(inbox) + arrivals && |arrivals| + supply == old(supply)
        invariant !connected ==> arrivals == []
        decreases supply
      {
        var datagram: string := *;
        inbox := inbox + [datagram];
        arrivals := arrivals + [datagram];
        supply := supply - 1;
        more := *;
      }
    }

    /** Binding or connecting the socket may fail, and then nothing is open. */
    method Open() returns (r: Result<()>)
      modifies this`connected, this`inbox, this`outbox, this`ticks
      ensures ticks == old(ticks) + if r.Err? then [Fault] else []
      ensures r.Ok? <==> connected
      ensures old(connected) ==> r.Ok? && inbox == old(inbox) && outbox == old(outbox)
      ensures !old(connected) ==> inbox == [] && outbox == []
      ensures r.Err? ==> r.error == ConnectionError
    {
      if connected {
        return Ok(());
      }
      inbox, outbox := [], [];
      connected := *;
      if connected {
        return Ok(());
      }
      ticks := ticks + [Fault];
      r := Err(ConnectionError);
    }

    method Close()
      modifies this`connected, this`inbox
      ensures !connected && inbox == []
    {
      connected, inbox := false, [];
    }

    /** One datagram goes out, or the send fails and none does. */
    method Send(command: string) returns (r: Result<()>)
      modifies this`outbox, this`ticks
      ensures ticks == old(ticks) + if r.Err? then [Fault] else []
      ensures r.Ok? ==> connected && outbox == old(outbox) + [command]
      ensures r.Err? ==> r.error == ConnectionError && outbox == old(outbox)
    {
      var fails: bool := *;
      if !connected || fails {
        ticks := ticks + [Fault];
        return Err(ConnectionError);
      }
      outbox := outbox + [command];
      r := Ok(());
    }

    /** The next datagram, or none after the whole of the timeout; or the receive fails and takes none. */
    method Receive(timeout: real) returns (r: Result<string>, ghost arrivals: seq<string>)
      requires connected
      modifies this
      ensures connected && outbox == old(outbox) && clock >= old(clock)
      ensures |arrivals| + supply == old(supply)
      ensures ticks
           == old(ticks) + [if r.Ok? then Took(timeout) else if r.error == TimedOut then Missed(timeout) else Fault]
      ensures match r
        case Ok(datagram) => [datagram] + inbox == old(inbox) + arrivals
        case Err(TimedOut) => inbox == old(inbox) + arrivals == [] && clock >= old(clock) + timeout
        case Err(e) => e == ConnectionError && inbox == old(inbox) + arrivals
    {
      var start := clock;
      arrivals := Elapse();
      var fails: bool := *;
      if fails {
        ticks := ticks + [Fault];
        r := Err(ConnectionError);
      } else if inbox != [] {
        ticks := ticks + [Took(timeout)];
        r := Ok(inbox[0]);
        inbox := inbox[1..];
      } else {
        if clock < start + timeout {
          clock := start + timeout;
        }
        ticks := ticks + [Missed(timeout)];
        r := Err(TimedOut);
      }
    }

    /** Whether a datagram is waiting, none being consumed. */
    method Pending(timeout: real) returns (r: Result<bool>, ghost arrivals: seq<string>)
      modifies this
      ensures connected == old(connected) && outbox == old(outbox) && clock >= old(clock)
      ensures inbox == old(inbox) + arrivals && |arrivals| + supply == old(supply)
      ensures match r
        case Ok(waiting) => connected && (waiting <==> inbox != []) && (waiting || clock >= old(clock) + timeout)
        case Err(e) => e == ConnectionError
      ensures !connected ==> r.Err? && arrivals == []
      ensures ticks == old(ticks) + [if r.Ok? then Looked(timeout, r.value) else Fault]
    {
      if !connected {
        ticks := ticks + [Fault];
        return Err(ConnectionError), [];
      }
      var start := clock;
      arrivals := Elapse();
      var fails: bool := *;
      if fails {
        ticks := ticks + [Fault];
        return Err(ConnectionError), arrivals;
      }
      if inbox == [] && clock < start + timeout {
        clock := start + timeout;
      }
      ticks := ticks + [Looked(timeout, inbox != [])];
      r := Ok(inbox != []);
    }

    /** Seconds until the deadline, never negative; the clock may have moved on before it is read. */
    method Remaining(deadline: real) returns (left: real)
      modifies this`clock, this`ticks
      ensures clock >= old(clock)
      ensures left == if deadline > clock then deadline - clock else 0.0
      ensures ticks == old(ticks) + [Left(deadline, left)]
    {
      var wait: real := *;
      if wait > 0.0 {
        clock := clock + wait;
      }
      left := if deadline > clock then deadline - clock else 0.0;
      ticks := ticks + [Left(deadline, left)];
    }
  }
}
