/** The log service and the sink as the objects they are, each request uninterrupted; channels are known by number. */
module LogStreams {
  import opened Options
  import opened LogSessions

  class Channels {
    var table: seq<Session>

    constructor ()
      ensures table == []
    {
      table := [];
    }

    /** Sends without waiting. */
    method Send(channel: nat, line: Line)
      requires channel < |table|
      modifies this
      ensures table == old(table)[channel := Offered(old(table)[channel], line)]
      ensures var p := old(table)[channel];
              table[channel] == if |p.queue| < 256 then p.(accepted := p.accepted + [line], queue := p.queue + [line]) else p
    {
      var s := table[channel];
      if |s.queue| < CAPACITY {
        table := table[channel := s.(queue := s.queue + [line], accepted := s.accepted + [line])];
      }
    }
  }

  class Sink {
    const channels: Channels
    var attached: Option<nat>

    constructor (channels: Channels)
      ensures this.channels == channels && attached == None
    {
      this.channels, attached := channels, None;
    }

    method Attach(channel: nat)
      modifies this
      ensures attached == Some(channel)
    {
      attached := Some(channel);
    }

    method Detach()
      modifies this
      ensures attached == None
    {
      attached := None;
    }

    method Handle(line: Line)
      requires attached.Some? ==> attached.value < |channels.table|
      modifies channels
      ensures attached.None? ==> channels.table == old(channels.table)
      ensures attached.Some? ==>
                channels.table == old(channels.table)[attached.value := Offered(old(channels.table)[attached.value], line)]
    {
      if attached.Some? {
        channels.Send(attached.value, line);
      }
    }
  }

  /** What wakes a pump: the stream's context is done, or a line is there, whose sending works or not. */
  datatype PumpEvent = ContextDone | LineReady(sent: bool)

  /** The event on which a pump that found so many lines queued returns. */
  predicate Ends(e: PumpEvent, n: nat, queued: nat) {
    e.ContextDone? || (!e.sent && n < queued)
  }

  /** The pump's loop, for as long as events come. It sends the queued lines in order, one for each event, up to the event
      that makes it return, and then closes its done channel. Only a line whose sending failed is lost. */
  method RunPump(channels: Channels, channel: nat, events: seq<PumpEvent>) returns (n: nat)
    requires channel < |channels.table| && channels.table[channel].pump.Running? && channels.table[channel].held.None?
    requires Kept(channels.table[channel])
    modifies channels
    ensures |channels.table| == |old(channels.table)| && Kept(channels.table[channel])
    ensures channels.table == old(channels.table)[channel := channels.table[channel]]
    ensures n <= |events|
    ensures forall i :: 0 <= i < n ==> !Ends(events[i], i, |old(channels.table)[channel].queue|)
    ensures n < |events| ==> Ends(events[n], n, |old(channels.table)[channel].queue|)
    ensures var before, after := old(channels.table)[channel], channels.table[channel];
            var sent := if n < |before.queue| then n else |before.queue|;
            && after.sent == before.sent + before.queue[..sent]
            && after.accepted == before.accepted && after.cancelled == before.cancelled
            && (after.pump.Exited? <==> n < |events|)
            && after.doneCloses == (if n < |events| then 1 else 0)
            && (n < |events| && events[n].LineReady? <==> after.held.Some?)
  {
    ghost var before := channels.table[channel];
    ghost var started := channels.table;
    n := 0;
    while n < |events|
      invariant n <= |events|
      invariant |channels.table| == |started| && channels.table == started[channel := channels.table[channel]]
      invariant Kept(channels.table[channel])
      invariant channels.table[channel].pump.Running? && channels.table[channel].held.None?
      invariant channels.table[channel].accepted == before.accepted && channels.table[channel].cancelled == before.cancelled
      invariant forall i :: 0 <= i < n ==> !Ends(events[i], i, |before.queue|)
      invariant var sent := if n < |before.queue| then n else |before.queue|;
                && channels.table[channel].sent == before.sent + before.queue[..sent]
                && channels.table[channel].queue == before.queue[sent..]
    {
      var s := channels.table[channel];
      match events[n]
      case ContextDone =>
        channels.table := channels.table[channel := Ended(s)];
        return;
      case LineReady(sent) =>
        if s.queue != [] {
          ReceivedKept(s);
          var received := Received(s);
          SentKept(received);
          if !sent {
            channels.table := channels.table[channel := Ended(received)];
            return;
          }
          channels.table := channels.table[channel := Sent(received)];
          assert before.queue[..n + 1] == before.queue[..n] + [before.queue[n]];
        }
        n := n + 1;
    }
  }

  // ------------------------------------------------------------------ a request without interruption

  function Answer(r: Request, ended: bool, reached: bool): bool {
    match r
    case Waiting(_, _) => ended
    case Dialing(_) => reached
    case _ => true
  }

  function StepsToGo(r: Request): nat {
    match r
    case Idle => 0
    case Announcing => 1
    case Spawning(_) => 2
    case Attaching(_) => 3
    case Setting(_) => 4
    case Dialing(_) => 5
    case Opening => 6
    case Waiting(_, _) => 7
    case Cancelling(_, _) => 8
    case Detaching(_, _) => 9
  }

  /** The steps of a request, one after the other. */
  function Uninterrupted(s: State, ended: bool, reached: bool, line: Line): State
    decreases StepsToGo(s.request)
  {
    var ok := Answer(s.request, ended, reached);
    if s.request.Idle? || !RequestEnabled(s, ok) then s else Uninterrupted(StepRequest(s, ok, line), ended, reached, line)
  }

  /** Whether the pump is over by the time a stop asks. */
  predicate PumpOver(s: State) {
    s.current.Some? ==> s.current.value < |s.sessions| && s.sessions[s.current.value].pump.Exited?
  }

  /** Where stopping leads: to an end, or to opening a new session. */
  function StopsAt(s: State, ended: bool, restart: bool): State {
    var next := if restart && (s.current.None? || ended) then Opening else Idle;
    if s.current.None? || s.current.value >= |s.sessions| then s.(sink := None, current := None, request := next)
    else Cancelled(s, s.current.value).(
      sink := None, current := None, request := next, overdue := if ended then s.overdue else s.overdue + {s.current.value})
  }

  lemma {:induction false} StopRuns(s: State, ended: bool, restart: bool, reached: bool, line: Line)
    requires s.request.Idle? && (s.current.Some? ==> s.current.value < |s.sessions|) && (ended ==> PumpOver(s))
    ensures Uninterrupted(Step(s, Ask(restart)), ended, reached, line) ==
            Uninterrupted(StopsAt(s, ended, restart), ended, reached, line)
  {
    var s1 := Step(s, Ask(restart));
    var s2 := StepRequest(s1, true, line);
    assert Uninterrupted(s1, ended, reached, line) == Uninterrupted(s2, ended, reached, line);
    var s3 := StepRequest(s2, true, line);
    assert Uninterrupted(s2, ended, reached, line) == Uninterrupted(s3, ended, reached, line);
    if s.current.None? {
      assert s3 == StopsAt(s, ended, restart);
    } else {
      assert s3.request == Waiting(s.current.value, restart);
      var s4 := StepRequest(s3, ended, line);
      assert Uninterrupted(s3, ended, reached, line) == Uninterrupted(s4, ended, reached, line);
      assert s4 == StopsAt(s, ended, restart);
    }
  }

  /** Where a start leads from there. */
  function StartsAt(s: State, reached: bool, line: Line): State {
    var i := |s.sessions|;
    if reached then
      s.(sessions := s.sessions + [Fresh(s.serviceDone).(pump := Running)], current := Some(i), sink := Some(i),
         request := Idle, writers := s.writers + [Writer(i, line)])
    else s.(sessions := s.sessions + [Fresh(true)], request := Idle)
  }

  lemma {:induction false} StartRuns(s: State, ended: bool, reached: bool, line: Line)
    requires s.request.Opening? && s.current.None? && s.sink.None?
    ensures Uninterrupted(s, ended, reached, line) == StartsAt(s, reached, line)
  {
    var s1 := StepRequest(s, true, line);
    assert Uninterrupted(s, ended, reached, line) == Uninterrupted(s1, ended, reached, line);
    var s2 := StepRequest(s1, reached, line);
    assert Uninterrupted(s1, ended, reached, line) == Uninterrupted(s2, ended, reached, line);
    if reached {
      var s3 := StepRequest(s2, true, line);
      assert Uninterrupted(s2, ended, reached, line) == Uninterrupted(s3, ended, reached, line);
      var s4 := StepRequest(s3, true, line);
      assert Uninterrupted(s3, ended, reached, line) == Uninterrupted(s4, ended, reached, line);
      var s5 := StepRequest(s4, true, line);
      assert Uninterrupted(s4, ended, reached, line) == Uninterrupted(s5, ended, reached, line);
      var s6 := StepRequest(s5, true, line);
      assert Uninterrupted(s5, ended, reached, line) == Uninterrupted(s6, ended, reached, line) == s6;
      assert s6.sessions == s.sessions + [Fresh(s.serviceDone).(pump := Running)];
    } else {
      assert Uninterrupted(s2, ended, reached, line) == s2;
      assert s2.sessions == s.sessions + [Fresh(true)];
    }
  }

  /** And then the greeting is written. */
  function Written(s: State): State {
    if s.writers != [] && Enabled(s, Write(0)) then Step(s, Write(0)) else s
  }

  /** A session that has been started and greeted. */
  function Greeted(cancelled: bool, line: Line): Session {
    Session(cancelled, [line], [line], None, [], Running, 0)
  }

  lemma WrittenStart(s: State, reached: bool, line: Line)
    requires s.writers == []
    ensures Written(StartsAt(s, reached, line)) ==
            s.(sessions := s.sessions + [if reached then Greeted(s.serviceDone, line) else Fresh(true)],
               current := if reached then Some(|s.sessions|) else s.current,
               sink := if reached then Some(|s.sessions|) else s.sink, request := Idle)
  {
    if reached {
      var t := StartsAt(s, true, line);
      assert t.writers == [Writer(|s.sessions|, line)] && t.writers[..0] + t.writers[1..] == [];
      assert Offered(t.sessions[|s.sessions|], line) == Greeted(s.serviceDone, line);
      assert t.sessions[|s.sessions| := Greeted(s.serviceDone, line)] == s.sessions + [Greeted(s.serviceDone, line)];
    }
  }

  class LogService {
    const channels: Channels
    const sink: Sink
    var streamLog: Option<nat>
    var serviceDone: bool
    ghost var overdue: set<nat>  // the sessions whose stop timed out

    /** The state of the machine between two requests, with no goroutine on its way to a channel. */
    ghost function View(): State
      reads this, sink, channels
    {
      State(channels.table, streamLog, sink.attached, Idle, [], serviceDone, overdue)
    }

    /** Between requests the sink is attached to the session the service holds, if it holds one, and only that session is
        live. */
    ghost predicate Valid()
      reads this, sink, channels
    {
      && sink.channels == channels && sink.attached == streamLog
      && (streamLog.Some? ==> streamLog.value < |channels.table|)
      && forall i :: 0 <= i < |channels.table| && !channels.table[i].cancelled ==> streamLog == Some(i)
    }

    constructor (channels: Channels, sink: Sink)
      requires channels.table == [] && sink.channels == channels && sink.attached == None
      ensures Valid() && streamLog == None && this.channels == channels && this.sink == sink && !serviceDone
    {
      this.channels, this.sink, streamLog, serviceDone, overdue := channels, sink, None, false, {};
    }

    method WriteStreamLog(line: Line)
      requires Valid()
      modifies channels
      ensures Valid()
      ensures channels.table == if streamLog.None? then old(channels.table)
                                else old(channels.table)[streamLog.value := Offered(old(channels.table)[streamLog.value], line)]
    {
      if streamLog.Some? {
        channels.Send(streamLog.value, line);
      }
    }

    /** ended: the pump ends before the time is up. A call without interruption is the run of its steps. */
    method StopStreamLog(ended: bool) returns (ok: bool)
      requires Valid()
      modifies this`streamLog, this`overdue, sink, channels
      ensures Valid() && streamLog == None && ok == (old(streamLog).None? || ended)
      ensures channels.table == if old(streamLog).None? then old(channels.table)
                                else var i := old(streamLog).value;
                                     old(channels.table)[i := old(channels.table)[i].(cancelled := true)]
      ensures View() == StopsAt(old(View()), ended, false)
      ensures (ended ==> PumpOver(old(View()))) ==> View() == Uninterrupted(Step(old(View()), Ask(false)), ended, true, 0)
    {
      if ended ==> PumpOver(View()) {
        StopRuns(View(), ended, false, true, 0);
      }
      var last := streamLog;
      streamLog := None;
      sink.Detach();
      if last.None? {
        return true;
      }
      channels.table := channels.table[last.value := channels.table[last.value].(cancelled := true)];
      if !ended {
        overdue := overdue + {last.value};
      }
      return ended;
    }

    /** Makes a session, unless the master is not reached. */
    method OpenSession(reached: bool, line: Line) returns (ok: bool)
      requires Valid() && streamLog == None
      modifies this`streamLog, sink, channels
      ensures Valid() && ok == reached && streamLog == if reached then Some(|old(channels.table)|) else None
      ensures channels.table == old(channels.table) + [if reached then Greeted(serviceDone, line) else Fresh(true)]
    {
      var channel := |channels.table|;
      channels.table := channels.table + [Fresh(serviceDone)];
      if !reached {
        channels.table := channels.table[channel := Fresh(true)];
        return false;
      }
      streamLog := Some(channel);
      sink.Attach(channel);
      channels.table := channels.table[channel := channels.table[channel].(pump := Running)];
      WriteStreamLog(line);
      assert channels.table[channel] == Greeted(serviceDone, line) && channels.table[..channel] == old(channels.table);
      return true;
    }

    /** Whatever happens, the session before is cancelled; only if it ended in time is the master asked, and only if the
        master was reached is there a new one, live unless the service is ending, attached, and with line in its channel. */
    method StartStreamLog(ended: bool, reached: bool, line: Line) returns (ok: bool)
      requires Valid()
      modifies this`streamLog, this`overdue, sink, channels
      ensures Valid() && ok == ((old(streamLog).None? || ended) && reached)
      ensures forall i :: 0 <= i < |old(channels.table)| ==>
                i < |channels.table| && channels.table[i] == old(channels.table)[i].(cancelled := true)
      ensures ok ==> streamLog == Some(|old(channels.table)|) && |channels.table| == |old(channels.table)| + 1
      ensures ok ==> channels.table[|old(channels.table)|] == Greeted(serviceDone, line)
      ensures !ok ==> streamLog == None && forall i :: 0 <= i < |channels.table| ==> channels.table[i].cancelled
      ensures (ended ==> PumpOver(old(View()))) ==>
                View() == Written(Uninterrupted(Step(old(View()), Ask(true)), ended, reached, line))
    {
      ghost var was := View();
      ok := StopStreamLog(ended);
      ghost var stopped := StopsAt(was, ended, true);
      if ended ==> PumpOver(was) {
        StopRuns(was, ended, true, reached, line);
      }
      if !ok {
        assert Uninterrupted(stopped, ended, reached, line) == stopped == View();
        return;
      }
      StartRuns(stopped, ended, reached, line);
      WrittenStart(stopped, reached, line);
      ok := OpenSession(reached, line);
    }

    /** The end of the service's own context ends those of all sessions. */
    method EndService()
      requires Valid()
      modifies this`serviceDone, channels
      ensures Valid() && serviceDone && |channels.table| == |old(channels.table)|
      ensures forall i :: 0 <= i < |channels.table| ==> channels.table[i] == old(channels.table)[i].(cancelled := true)
    {
      serviceDone := true;
      var table := channels.table;
      channels.table := seq(|table|, i requires 0 <= i < |table| => table[i].(cancelled := true));
    }
  }
}
