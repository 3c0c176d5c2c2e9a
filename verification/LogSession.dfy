/** Log streaming to the master. A session is a context, a bounded channel and a pump that sends what the channel accepts.
    The service holds at most one, and the log sink points at its channel. Start and stop requests come one at a time;
    logging goroutines and pumps run between any two of their steps. */
module LogSessions {
  import opened Options

  type Line = nat

  const CAPACITY: nat := 256

  datatype Pump = NotStarted | Running | Exited

  /** held is the line the pump has received and not yet sent; a failed send leaves it there. */
  datatype Session = Session(cancelled: bool, accepted: seq<Line>, queue: seq<Line>, held: Option<Line>, sent: seq<Line>,
                             pump: Pump, doneCloses: nat)

  function Fresh(cancelled: bool): Session {
    Session(cancelled, [], [], None, [], NotStarted, 0)
  }

  /** A send that does not wait: a full channel drops the line. */
  function Offered(s: Session, line: Line): Session {
    if |s.queue| < CAPACITY then s.(accepted := s.accepted + [line], queue := s.queue + [line]) else s
  }

  function Received(s: Session): Session
    requires s.queue != []
  {
    s.(held := Some(s.queue[0]), queue := s.queue[1..])
  }

  function Sent(s: Session): Session
    requires s.held.Some?
  {
    s.(held := None, sent := s.sent + [s.held.value])
  }

  function Ended(s: Session): Session {
    s.(pump := Exited, doneCloses := s.doneCloses + 1)
  }

  function InHand(held: Option<Line>): seq<Line> {
    if held.Some? then [held.value] else []
  }

  /** Every accepted line was sent, is in the pump's hands or is queued, in this order. */
  ghost predicate Kept(s: Session) {
    && s.accepted == s.sent + (InHand(s.held) + s.queue) && |s.queue| <= CAPACITY
    && s.doneCloses == (if s.pump.Exited? then 1 else 0)
    && (s.pump.NotStarted? ==> s.held.None? && s.sent == [])
  }

  lemma OfferedKept(s: Session, line: Line)
    requires Kept(s)
    ensures Kept(Offered(s, line))
  {
    assert s.sent + (InHand(s.held) + (s.queue + [line])) == (s.sent + (InHand(s.held) + s.queue)) + [line];
  }

  lemma ReceivedKept(s: Session)
    requires Kept(s) && s.queue != [] && s.held.None? && s.pump.Running?
    ensures Kept(Received(s))
  {
    assert [s.queue[0]] + s.queue[1..] == s.queue;
  }

  lemma SentKept(s: Session)
    requires Kept(s) && s.held.Some? && s.pump.Running?
    ensures Kept(Sent(s))
  {
    assert s.sent + ([s.held.value] + s.queue) == (s.sent + [s.held.value]) + ([] + s.queue);
  }

  // ------------------------------------------------------------------ the state machine

  /** A request in progress: how far stopping the session before has come, and how far making a new one. */
  datatype Request =
    | Idle
    | Detaching(last: Option<nat>, restart: bool)
    | Cancelling(last: Option<nat>, restart: bool)
    | Waiting(id: nat, restart: bool)
    | Opening
    | Dialing(id: nat)
    | Setting(id: nat)
    | Attaching(id: nat)
    | Spawning(id: nat)
    | Announcing

  /** A goroutine between reading which channel to use and sending to it. */
  datatype Writer = Writer(target: nat, line: Line)

  /** overdue holds the sessions whose stop timed out. */
  datatype State = State(sessions: seq<Session>, current: Option<nat>, sink: Option<nat>, request: Request,
                         writers: seq<Writer>, serviceDone: bool, overdue: set<nat>)

  datatype Action =
    | Ask(restart: bool)               // a stop request, or a start request, which stops first
    | Proceed(ok: bool, line: Line)    // the request's next step; ok: the pump ended in time, the master was reached
    | Log(line: Line)                  // a goroutine logs, and reads the sink's channel
    | Write(writer: nat)
    | PumpReceive(id: nat)
    | PumpSend(id: nat, ok: bool)
    | PumpQuit(id: nat)                // the stream's context is done
    | EndService

  predicate Pumping(s: State, i: nat) {
    i < |s.sessions| && s.sessions[i].pump.Running?
  }

  predicate RequestEnabled(s: State, ok: bool) {
    match s.request
    case Idle => false
    case Cancelling(last, _) => last.Some? ==> last.value < |s.sessions|
    case Waiting(i, _) => i < |s.sessions| && (ok ==> s.sessions[i].pump.Exited?)
    case Dialing(i) => i < |s.sessions|
    case Spawning(i) => i < |s.sessions|
    case _ => true
  }

  predicate Enabled(s: State, a: Action) {
    match a
    case Ask(_) => s.request.Idle?
    case Proceed(ok, _) => RequestEnabled(s, ok)
    case Log(_) => true
    case Write(w) => w < |s.writers| && s.writers[w].target < |s.sessions|
    case PumpReceive(i) => Pumping(s, i) && s.sessions[i].held.None? && s.sessions[i].queue != []
    case PumpSend(i, _) => Pumping(s, i) && s.sessions[i].held.Some?
    case PumpQuit(i) => Pumping(s, i) && s.sessions[i].held.None?
    case EndService => true
  }

  function Cancelled(s: State, i: nat): State
    requires i < |s.sessions|
  {
    s.(sessions := s.sessions[i := s.sessions[i].(cancelled := true)])
  }

  function Captured(s: State, channel: Option<nat>, line: Line): State {
    if channel.Some? then s.(writers := s.writers + [Writer(channel.value, line)]) else s
  }

  function StepRequest(s: State, ok: bool, line: Line): State
    requires RequestEnabled(s, ok)
  {
    match s.request
    case Idle => s
    case Detaching(last, restart) => s.(sink := None, request := Cancelling(last, restart))
    case Cancelling(last, restart) =>
      if last.None? then s.(request := if restart then Opening else Idle)
      else Cancelled(s, last.value).(request := Waiting(last.value, restart))
    case Waiting(i, restart) =>
      if ok then s.(request := if restart then Opening else Idle) else s.(request := Idle, overdue := s.overdue + {i})
    case Opening => s.(sessions := s.sessions + [Fresh(s.serviceDone)], request := Dialing(|s.sessions|))
    case Dialing(i) => if ok then s.(request := Setting(i)) else Cancelled(s, i).(request := Idle)
    case Setting(i) => s.(current := Some(i), request := Attaching(i))
    case Attaching(i) => s.(sink := Some(i), request := Spawning(i))
    case Spawning(i) => s.(sessions := s.sessions[i := s.sessions[i].(pump := Running)], request := Announcing)
    case Announcing => Captured(s, s.current, line).(request := Idle)
  }

  function Step(s: State, a: Action): State
    requires Enabled(s, a)
  {
    match a
    case Ask(restart) => s.(current := None, request := Detaching(s.current, restart))
    case Proceed(ok, line) => StepRequest(s, ok, line)
    case Log(line) => Captured(s, s.sink, line)
    case Write(w) =>
      var (i, line) := (s.writers[w].target, s.writers[w].line);
      s.(sessions := s.sessions[i := Offered(s.sessions[i], line)], writers := s.writers[..w] + s.writers[w + 1..])
    case PumpReceive(i) => s.(sessions := s.sessions[i := Received(s.sessions[i])])
    case PumpSend(i, ok) => s.(sessions := s.sessions[i := if ok then Sent(s.sessions[i]) else Ended(s.sessions[i])])
    case PumpQuit(i) => s.(sessions := s.sessions[i := Ended(s.sessions[i])])
    case EndService =>
      s.(sessions := seq(|s.sessions|, i requires 0 <= i < |s.sessions| => s.sessions[i].(cancelled := true)),
         serviceDone := true)
  }

  // ------------------------------------------------------------------ what becomes of a line

  /** From s to s' only session i changed, to p. */
  predicate OnlySession(s: State, s': State, i: nat, p: Session) {
    i < |s.sessions| && s'.sessions == s.sessions[i := p]
  }

  /** A goroutine that logs while the sink points at a channel is on its way there with its line; otherwise nothing happens. */
  lemma LogIsOnItsWay(s: State, line: Line)
    ensures var s' := Step(s, Log(line));
            && s'.sessions == s.sessions
            && s'.writers == if s.sink.Some? then s.writers + [Writer(s.sink.value, line)] else s.writers
  {
  }

  /** Its send is over in one step: the channel accepts the line, as its last, exactly if fewer than 256 are queued. */
  lemma WriteIsOffered(s: State, w: nat)
    requires Enabled(s, Write(w))
    ensures var (s', x) := (Step(s, Write(w)), s.writers[w]);
            var p := s.sessions[x.target];
            && s'.writers == s.writers[..w] + s.writers[w + 1..]
            && OnlySession(s, s', x.target,
                 if |p.queue| < 256 then p.(accepted := p.accepted + [x.line], queue := p.queue + [x.line]) else p)
  {
  }

  /** A pump takes the oldest line in hand and then sends it; it ends, closing its done channel, when a send fails or when
      it finds the stream's context done. */
  lemma PumpOutcome(s: State, a: Action)
    requires Enabled(s, a) && (a.PumpReceive? || a.PumpSend? || a.PumpQuit?)
    ensures var p := s.sessions[a.id];
            && (a.PumpReceive? ==>
                  p.queue != [] && OnlySession(s, Step(s, a), a.id, p.(held := Some(p.queue[0]), queue := p.queue[1..])))
            && (a.PumpSend? && a.ok ==>
                  p.held.Some? && OnlySession(s, Step(s, a), a.id, p.(held := None, sent := p.sent + [p.held.value])))
            && (a.PumpQuit? || (a.PumpSend? && !a.ok) ==>
                  OnlySession(s, Step(s, a), a.id, p.(pump := Exited, doneCloses := p.doneCloses + 1)))
    ensures Step(s, a).writers == s.writers
  {
  }

  // ------------------------------------------------------------------ the invariant

  /** The session the service holds, or that the request in progress has in its hands. */
  function Owned(s: State): Option<nat> {
    match s.request
    case Detaching(last, _) => last
    case Cancelling(last, _) => last
    case Dialing(i) => Some(i)
    case Setting(i) => Some(i)
    case _ => s.current
  }

  /** Where the request stands determines what the fields and the sink hold. */
  predicate Placed(s: State) {
    match s.request
    case Idle => s.sink == s.current
    case Detaching(last, _) => s.current.None? && s.sink == last
    case Cancelling(_, _) => s.current.None? && s.sink.None?
    case Waiting(i, _) => s.current.None? && s.sink.None? && i < |s.sessions|
    case Opening => s.current.None? && s.sink.None?
    case Dialing(_) => s.current.None? && s.sink.None?
    case Setting(_) => s.current.None? && s.sink.None?
    case Attaching(i) => s.current == Some(i) && s.sink.None?
    case Spawning(i) => s.sink == s.current == Some(i)
    case Announcing => s.sink == s.current && s.current.Some?
  }

  /** Whether the owned session's pump has been started yet. */
  predicate Spawned(r: Request) {
    !r.Dialing? && !r.Setting? && !r.Attaching? && !r.Spawning?
  }

  ghost predicate SessionInv(s: State, i: nat)
    requires i < |s.sessions|
  {
    && Kept(s.sessions[i])
    && (Owned(s) == Some(i) ==> (Spawned(s.request) <==> !s.sessions[i].pump.NotStarted?))
    && (s.request.Waiting? && s.request.id == i ==> !s.sessions[i].pump.NotStarted?)
    && (!s.sessions[i].cancelled <==> Owned(s) == Some(i) && !s.serviceDone)
    && (s.sessions[i].pump.Running? ==> Owned(s) == Some(i) || (s.request.Waiting? && s.request.id == i) || i in s.overdue)
  }

  ghost predicate Inv(s: State) {
    && Placed(s)
    && (Owned(s).Some? ==> Owned(s).value < |s.sessions|)
    && (forall i :: 0 <= i < |s.sessions| ==> SessionInv(s, i))
    && (forall w :: 0 <= w < |s.writers| ==> s.writers[w].target < |s.sessions|)
  }

  predicate Stops(r: Request) {
    r.Detaching? || r.Cancelling? || r.Waiting?
  }

  lemma StoppingInv(s: State, ok: bool, line: Line, i: nat)
    requires Placed(s) && RequestEnabled(s, ok) && Stops(s.request) && i < |s.sessions| && SessionInv(s, i)
    ensures SessionInv(StepRequest(s, ok, line), i)
  {
  }

  lemma StartingInv(s: State, ok: bool, line: Line, i: nat)
    requires Placed(s) && RequestEnabled(s, ok) && !Stops(s.request) && i < |StepRequest(s, ok, line).sessions|
    requires i < |s.sessions| ==> SessionInv(s, i)
    ensures SessionInv(StepRequest(s, ok, line), i)
  {
  }

  lemma RequestInv(s: State, ok: bool, line: Line)
    requires Inv(s) && RequestEnabled(s, ok)
    ensures Inv(StepRequest(s, ok, line))
  {
    var s' := StepRequest(s, ok, line);
    forall i | 0 <= i < |s'.sessions| ensures SessionInv(s', i) {
      if Stops(s.request) {
        StoppingInv(s, ok, line, i);
      } else {
        StartingInv(s, ok, line, i);
      }
    }
  }

  lemma PumpKept(p: Session, a: Action)
    requires Kept(p) && p.pump.Running? && (a.PumpReceive? || a.PumpSend? || a.PumpQuit?)
    ensures a.PumpReceive? && p.held.None? && p.queue != [] ==> Kept(Received(p))
    ensures a.PumpSend? && p.held.Some? ==> Kept(Sent(p)) && Kept(Ended(p))
    ensures a.PumpQuit? ==> Kept(Ended(p))
  {
    if a.PumpReceive? && p.held.None? && p.queue != [] {
      ReceivedKept(p);
    } else if a.PumpSend? && p.held.Some? {
      SentKept(p);
    }
  }

  /** A step that replaces one session by another that is kept, as live as before, and not started anew. */
  lemma ReplaceInv(s: State, i: nat, p: Session)
    requires Inv(s) && i < |s.sessions| && Kept(p) && p.cancelled == s.sessions[i].cancelled
    requires p.pump == s.sessions[i].pump || (s.sessions[i].pump.Running? && p.pump.Exited?)
    ensures Inv(s.(sessions := s.sessions[i := p]))
  {
    var s' := s.(sessions := s.sessions[i := p]);
    forall j | 0 <= j < |s'.sessions| ensures SessionInv(s', j) {
      assert SessionInv(s, j);
    }
  }

  lemma PumpInv(s: State, a: Action)
    requires Inv(s) && Enabled(s, a) && (a.PumpReceive? || a.PumpSend? || a.PumpQuit?)
    ensures Inv(Step(s, a))
  {
    assert SessionInv(s, a.id);
    PumpKept(s.sessions[a.id], a);
    ReplaceInv(s, a.id, Step(s, a).sessions[a.id]);
  }

  lemma WriteInv(s: State, w: nat)
    requires Inv(s) && Enabled(s, Write(w))
    ensures Inv(Step(s, Write(w)))
  {
    var (i, line) := (s.writers[w].target, s.writers[w].line);
    assert SessionInv(s, i);
    OfferedKept(s.sessions[i], line);
    ReplaceInv(s, i, Offered(s.sessions[i], line));
    var r := s.(sessions := s.sessions[i := Offered(s.sessions[i], line)]);
    var s' := Step(s, Write(w));
    forall j | 0 <= j < |s'.sessions| ensures SessionInv(s', j) {
      assert SessionInv(r, j);
    }
  }

  lemma StepInv(s: State, a: Action)
    requires Inv(s) && Enabled(s, a)
    ensures Inv(Step(s, a))
  {
    match a
    case Proceed(ok, line) => RequestInv(s, ok, line);
    case Write(w) => WriteInv(s, w);
    case PumpReceive(_) => PumpInv(s, a);
    case PumpSend(_, _) => PumpInv(s, a);
    case PumpQuit(_) => PumpInv(s, a);
    case _ =>
      var s' := Step(s, a);
      forall i | 0 <= i < |s'.sessions| ensures SessionInv(s', i) {
        assert SessionInv(s, i);
      }
  }

  ghost predicate Execution(ss: seq<State>, acts: seq<Action>) {
    && |ss| == |acts| + 1 && ss[0] == State([], None, None, Idle, [], false, {})
    && forall i :: 0 <= i < |acts| ==> Enabled(ss[i], acts[i]) && ss[i + 1] == Step(ss[i], acts[i])
  }

  lemma {:induction false} AlwaysInv(ss: seq<State>, acts: seq<Action>, n: nat)
    requires Execution(ss, acts) && n < |ss|
    ensures Inv(ss[n])
  {
    if n == 0 {
    } else {
      AlwaysInv(ss, acts, n - 1);
      StepInv(ss[n - 1], acts[n - 1]);
      assert ss[n - 1 + 1] == Step(ss[n - 1], acts[n - 1]);
    }
  }

  // ------------------------------------------------------------------ what holds of every run

  /** At most one session is not cancelled, and between requests it is the one the service holds. The sink points at the
      session the service or its request has in hand, or at nothing; between requests, at the one the service holds. */
  lemma OneLiveSession(ss: seq<State>, acts: seq<Action>, n: nat, i: nat)
    requires Execution(ss, acts) && n < |ss| && i < |ss[n].sessions| && !ss[n].sessions[i].cancelled
    ensures forall j :: 0 <= j < |ss[n].sessions| && j != i ==> ss[n].sessions[j].cancelled
    ensures Owned(ss[n]) == Some(i) && (ss[n].request.Idle? ==> ss[n].current == ss[n].sink == Some(i))
    ensures ss[n].sink.Some? ==> ss[n].sink == Some(i)
  {
    AlwaysInv(ss, acts, n);
    assert SessionInv(ss[n], i);
    forall j | 0 <= j < |ss[n].sessions| && j != i ensures ss[n].sessions[j].cancelled {
      assert SessionInv(ss[n], j);
    }
  }

  /** A request leaves behind no live session, or, if it was a start that went through, one that the service holds, that the
      sink feeds and whose pump was started, and to which its greeting is on its way. */
  lemma RequestOutcome(ss: seq<State>, acts: seq<Action>, n: nat)
    requires Execution(ss, acts) && n < |acts| && !ss[n].request.Idle? && ss[n + 1].request.Idle?
    ensures var s := ss[n + 1];
            if ss[n].request.Announcing?
            then && s.current == s.sink && s.current.Some? && s.current.value < |s.sessions|
                 && acts[n].Proceed? && s.writers == ss[n].writers + [Writer(s.current.value, acts[n].line)]
                 && !s.sessions[s.current.value].pump.NotStarted? && (s.serviceDone || !s.sessions[s.current.value].cancelled)
            else s.current == s.sink == None && forall i :: 0 <= i < |s.sessions| ==> s.sessions[i].cancelled
  {
    AlwaysInv(ss, acts, n);
    AlwaysInv(ss, acts, n + 1);
    var s := ss[n + 1];
    assert s == Step(ss[n], acts[n]) && acts[n].Proceed?;
    forall i | 0 <= i < |s.sessions| ensures s.sessions[i].cancelled <==> s.current != Some(i) || s.serviceDone {
      assert SessionInv(s, i);
    }
    if s.current.Some? {
      assert SessionInv(s, s.current.value);
    }
  }

  /** What a pump has sent is what its channel accepted first, in the same order; at most one line beyond it, and those in
      the channel, are not sent yet. The done channel is closed once, when the pump ends. */
  lemma SentInOrder(ss: seq<State>, acts: seq<Action>, n: nat, i: nat)
    requires Execution(ss, acts) && n < |ss| && i < |ss[n].sessions|
    ensures var s := ss[n].sessions[i];
            && s.sent <= s.accepted && |s.accepted| <= |s.sent| + 1 + |s.queue| && |s.queue| <= CAPACITY
            && s.doneCloses == if s.pump.Exited? then 1 else 0
  {
    AlwaysInv(ss, acts, n);
    assert SessionInv(ss[n], i);
  }

  /** Nobody waits for a request: a goroutine can log, a captured line be sent and the service end at any time. And a request
      in progress always has a step to take; one that waits for a pump gives up, at the latest. */
  lemma RequestsGoOn(ss: seq<State>, acts: seq<Action>, n: nat, line: Line, restart: bool)
    requires Execution(ss, acts) && n < |ss|
    ensures Enabled(ss[n], Log(line)) && Enabled(ss[n], EndService)
    ensures forall w :: 0 <= w < |ss[n].writers| ==> Enabled(ss[n], Write(w))
    ensures ss[n].request.Idle? <==> Enabled(ss[n], Ask(restart))
    ensures ss[n].request.Idle? <==> !Enabled(ss[n], Proceed(false, line))
  {
    AlwaysInv(ss, acts, n);
  }

  /** The lines that goroutines sent to session i in the first n steps while fewer than 256 were queued. */
  ghost function SentTo(ss: seq<State>, acts: seq<Action>, n: nat, i: nat): seq<Line>
    requires n <= |acts| && n < |ss|
  {
    if n == 0 then []
    else
      var (s, a) := (ss[n - 1], acts[n - 1]);
      SentTo(ss, acts, n - 1, i) +
      (if a.Write? && a.writer < |s.writers| && s.writers[a.writer].target == i
          && i < |s.sessions| && |s.sessions[i].queue| < 256 then [s.writers[a.writer].line] else [])
  }

  lemma AcceptedNext(s: State, a: Action, i: nat)
    requires Inv(s) && Enabled(s, a) && i < |s.sessions| && !a.Write?
    ensures i < |Step(s, a).sessions| && Step(s, a).sessions[i].accepted == s.sessions[i].accepted
  {
  }

  lemma FreshNext(s: State, a: Action)
    requires Inv(s) && Enabled(s, a)
    ensures |s.sessions| <= |Step(s, a).sessions|
    ensures forall i :: |s.sessions| <= i < |Step(s, a).sessions| ==> Step(s, a).sessions[i].accepted == []
  {
  }

  /** What a session's channel has accepted is exactly that, in order: a line is dropped only at a full channel. */
  lemma {:induction false} AcceptedIsSentTo(ss: seq<State>, acts: seq<Action>, n: nat, i: nat)
    requires Execution(ss, acts) && n < |ss|
    ensures SentTo(ss, acts, n, i) == if i < |ss[n].sessions| then ss[n].sessions[i].accepted else []
  {
    if n == 0 {
    } else {
      var (s, a) := (ss[n - 1], acts[n - 1]);
      AcceptedIsSentTo(ss, acts, n - 1, i);
      AlwaysInv(ss, acts, n - 1);
      assert ss[n - 1 + 1] == Step(s, a);
      FreshNext(s, a);
      if i < |s.sessions| {
        if a.Write? {
          WriteIsOffered(s, a.writer);
        } else {
          AcceptedNext(s, a, i);
        }
      }
    }
  }

  /** As long as no stop has timed out, at most one pump runs. */
  lemma OnePump(ss: seq<State>, acts: seq<Action>, n: nat, i: nat, j: nat)
    requires Execution(ss, acts) && n < |ss| && ss[n].overdue == {} && Pumping(ss[n], i) && Pumping(ss[n], j)
    ensures i == j
  {
    AlwaysInv(ss, acts, n);
    assert SessionInv(ss[n], i) && SessionInv(ss[n], j);
  }

  /** While a stop waits, the pump it waits for has been started and its context cancelled. Either it has ended, and the
      stop goes on, or it has a step to take. */
  lemma StopWaitsForPump(ss: seq<State>, acts: seq<Action>, n: nat)
    requires Execution(ss, acts) && n < |ss| && ss[n].request.Waiting?
    ensures var i := ss[n].request.id;
            && i < |ss[n].sessions| && ss[n].sessions[i].cancelled && !ss[n].sessions[i].pump.NotStarted?
            && (Enabled(ss[n], Proceed(true, 0)) <==> ss[n].sessions[i].pump.Exited?)
            && (Enabled(ss[n], PumpQuit(i)) || Enabled(ss[n], PumpSend(i, true)) <==> ss[n].sessions[i].pump.Running?)
  {
    AlwaysInv(ss, acts, n);
    assert SessionInv(ss[n], ss[n].request.id);
  }

  function WritersTo(ws: seq<Writer>, i: nat): nat {
    if ws == [] then 0 else WritersTo(ws[..|ws| - 1], i) + if ws[|ws| - 1].target == i then 1 else 0
  }

  lemma {:induction false} WriterDone(ws: seq<Writer>, w: nat, i: nat)
    requires w < |ws|
    ensures WritersTo(ws[..w] + ws[w + 1..], i) + (if ws[w].target == i then 1 else 0) == WritersTo(ws, i)
  {
    var n := |ws| - 1;
    if w == n {
      assert ws[..w] + ws[w + 1..] == ws[..n];
    } else {
      var front := ws[..n];
      WriterDone(front, w, i);
      var rest := ws[..w] + ws[w + 1..];
      assert rest[..|rest| - 1] == front[..w] + front[w + 1..] && rest[|rest| - 1] == ws[n];
    }
  }

  /** How many steps the pump of session i can still take, at most, once nobody new can write to its channel. */
  function PumpWork(s: State, i: nat): nat
    requires i < |s.sessions|
  {
    var p := s.sessions[i];
    2 * |p.queue| + |InHand(p.held)| + (if p.pump.Running? then 1 else 0) + 3 * WritersTo(s.writers, i)
  }

  predicate PumpStep(a: Action, i: nat) {
    (a.PumpReceive? || a.PumpSend? || a.PumpQuit?) && a.id == i
  }

  lemma WriteWorks(s: State, w: nat, i: nat)
    requires Enabled(s, Write(w)) && i < |s.sessions|
    ensures PumpWork(Step(s, Write(w)), i) <= PumpWork(s, i)
  {
    WriterDone(s.writers, w, i);
  }

  /** While a stop waits for a pump, no step leaves the pump more to do, and each of its own leaves it less. */
  lemma WaitingWorks(s: State, a: Action)
    requires Inv(s) && Enabled(s, a) && s.request.Waiting? && !a.Proceed?
    ensures var i := s.request.id;
            && Step(s, a).request == s.request && i < |s.sessions| && i < |Step(s, a).sessions|
            && PumpWork(Step(s, a), i) + (if PumpStep(a, i) then 1 else 0) <= PumpWork(s, i)
  {
    assert SessionInv(s, s.request.id);
    if a.Write? {
      WriteWorks(s, a.writer, s.request.id);
    }
  }

  function PumpSteps(acts: seq<Action>, i: nat): nat {
    if acts == [] then 0 else (if PumpStep(acts[0], i) then 1 else 0) + PumpSteps(acts[1..], i)
  }

  /** A stop waits for at most so many steps of the pump, whatever else runs meanwhile. */
  lemma {:induction false} StopWaitIsBounded(ss: seq<State>, acts: seq<Action>, m: nat, n: nat)
    requires Execution(ss, acts) && m <= n < |ss| && ss[m].request.Waiting? && forall j :: m <= j < n ==> !acts[j].Proceed?
    ensures var i := ss[m].request.id;
            && ss[n].request == ss[m].request && i < |ss[m].sessions| && i < |ss[n].sessions|
            && PumpSteps(acts[m..n], i) + PumpWork(ss[n], i) <= PumpWork(ss[m], i)
    decreases n - m
  {
    AlwaysInv(ss, acts, m);
    if m == n {
      assert acts[m..n] == [];
    } else {
      WaitingWorks(ss[m], acts[m]);
      StopWaitIsBounded(ss, acts, m + 1, n);
      assert acts[m..n][1..] == acts[m + 1..n] && acts[m..n][0] == acts[m];
    }
  }

  /** No line is on its way to session i, and nobody has it in hand. */
  ghost predicate Closed(s: State, i: nat) {
    && i < |s.sessions| && Owned(s) != Some(i) && s.sink != Some(i) && s.current != Some(i)
    && forall w :: 0 <= w < |s.writers| ==> s.writers[w].target != i
  }

  lemma ClosedRequest(s: State, ok: bool, line: Line, i: nat)
    requires Placed(s) && RequestEnabled(s, ok) && Closed(s, i)
    ensures var s' := StepRequest(s, ok, line); Closed(s', i) && s'.sessions[i].accepted == s.sessions[i].accepted
  {
  }

  lemma ClosedStep(s: State, a: Action, i: nat)
    requires Inv(s) && Enabled(s, a) && Closed(s, i)
    ensures Closed(Step(s, a), i) && Step(s, a).sessions[i].accepted == s.sessions[i].accepted
  {
    match a
    case Proceed(ok, line) => ClosedRequest(s, ok, line, i);
    case _ =>
  }

  lemma ClosedNext(ss: seq<State>, acts: seq<Action>, n: nat, i: nat)
    requires Execution(ss, acts) && n < |acts| && Closed(ss[n], i)
    ensures Closed(ss[n + 1], i) && ss[n + 1].sessions[i].accepted == ss[n].sessions[i].accepted
  {
    var s, a := ss[n], acts[n];
    AlwaysInv(ss, acts, n);
    ClosedStep(s, a, i);
  }

  /** Once a session is given up and the goroutines that had read its channel are done, it never accepts another line. */
  lemma {:induction false} ClosedForGood(ss: seq<State>, acts: seq<Action>, n: nat, m: nat, i: nat)
    requires Execution(ss, acts) && n <= m < |ss| && Closed(ss[n], i)
    ensures Closed(ss[m], i) && ss[m].sessions[i].accepted == ss[n].sessions[i].accepted
    decreases m - n
  {
    if n == m {
    } else {
      ClosedNext(ss, acts, n, i);
      ClosedForGood(ss, acts, n + 1, m, i);
    }
  }
}
