/** The listener that hands WebSocket connections to the gRPC server. Enqueue and Close hold the mutex; Accept does not,
    so it can take connections between the steps of a Close that is draining the queue. */
module Listeners {
  type Conn = nat

  datatype Taker = Accepted | Drained

  /** The queue channel with its capacity, the closed flag, how often each channel was closed, and what became of connections. */
  datatype Core = Core(
    capacity: nat,
    queue: seq<Conn>,
    closed: bool,
    doneCloses: nat,
    queueCloses: nat,
    enqueued: seq<Conn>,            // successfully, in order
    taken: seq<(Conn, Taker)>)      // received from the channel, in order

  /** A send that does not wait. It goes straight to an Accept that is waiting, if there is one, or else into the queue. */
  function Pushed(l: Core, c: Conn, accepting: bool): Core {
    if l.closed then l
    else if accepting then l.(enqueued := l.enqueued + [c], taken := l.taken + [(c, Accepted)])
    else if |l.queue| < l.capacity then l.(queue := l.queue + [c], enqueued := l.enqueued + [c])
    else l
  }

  function Taken(l: Core, who: Taker): Core
    requires l.queue != []
  {
    l.(queue := l.queue[1..], taken := l.taken + [(l.queue[0], who)])
  }

  /** An Accept that would not block: it gets the oldest connection, or an error. */
  predicate AcceptFails(l: Core) {
    l.doneCloses > 0 || (l.queueCloses > 0 && l.queue == [])
  }

  /** A call of Close: waiting for the mutex, or holding it and past its first, second or third statement, or returned. */
  datatype Closer = Waiting | Marked | Draining | Emptied | Returned

  function StepClose(l: Core, c: Closer): (Core, Closer) {
    match c
    case Waiting => if l.closed then (l, Returned) else (l.(closed := true), Marked)
    case Marked => (l.(doneCloses := l.doneCloses + 1), Draining)
    case Draining => if l.queue == [] then (l, Emptied) else (Taken(l, Drained), Draining)
    case Emptied => (l.(queueCloses := l.queueCloses + 1), Returned)
    case Returned => (l, Returned)
  }

  /** What a Close still has to do. */
  function StepsLeft(l: Core, c: Closer): nat {
    match c
    case Waiting => if l.closed then 1 else |l.queue| + 4
    case Marked => |l.queue| + 3
    case Draining => |l.queue| + 2
    case Emptied => 1
    case Returned => 0
  }

  /** The steps of a Close, one after the other. */
  function CloseAll(l: Core, c: Closer): Core
    decreases StepsLeft(l, c)
  {
    if c.Returned? then l else CloseAll(StepClose(l, c).0, StepClose(l, c).1)
  }

  /** The connections of a queue, in order, received by a drain. */
  function AllDrained(queue: seq<Conn>): (r: seq<(Conn, Taker)>)
    ensures |r| == |queue| && forall j :: 0 <= j < |queue| ==> r[j] == (queue[j], Drained)
  {
    seq(|queue|, j requires 0 <= j < |queue| => (queue[j], Drained))
  }

  lemma {:induction false} DrainStep(l: Core)
    requires l.queue != []
    ensures CloseAll(l, Draining) == CloseAll(Taken(l, Drained), Draining)
  {
  }

  lemma {:induction false} DrainLast(l: Core)
    requires l.queue == []
    ensures CloseAll(l, Draining) == l.(queueCloses := l.queueCloses + 1)
  {
    assert CloseAll(l, Draining) == CloseAll(l, Emptied);
    assert CloseAll(l, Emptied) == CloseAll(l.(queueCloses := l.queueCloses + 1), Returned);
  }

  lemma DrainedNext(taken: seq<(Conn, Taker)>, queue: seq<Conn>)
    requires queue != []
    ensures taken + [(queue[0], Drained)] + AllDrained(queue[1..]) == taken + AllDrained(queue)
  {
  }

  /** What is left of a Close once it drains. */
  lemma {:induction false} DrainEnds(l: Core)
    ensures CloseAll(l, Draining) ==
            l.(queue := [], taken := l.taken + AllDrained(l.queue), queueCloses := l.queueCloses + 1)
    decreases |l.queue|
  {
    if l.queue == [] {
      DrainLast(l);
      assert l.taken + AllDrained([]) == l.taken;
    } else {
      DrainStep(l);
      DrainEnds(Taken(l, Drained));
      DrainedNext(l.taken, l.queue);
    }
  }

  /** What a send does, told by its success: the connection goes to the waiting Accept, or last into the queue, and nowhere
      if it fails. */
  predicate HandsOver(was: Core, now: Core, c: Conn, accepting: bool, ok: bool) {
    if !ok then now == was
    else if accepting then now == was.(enqueued := was.enqueued + [c], taken := was.taken + [(c, Accepted)])
    else now == was.(enqueued := was.enqueued + [c], queue := was.queue + [c])
  }

  class Listener {
    var core: Core

    ghost predicate Valid()
      reads this
    {
      core.doneCloses == core.queueCloses == if core.closed then 1 else 0
    }

    constructor (bufferSize: nat)
      ensures Valid() && core == Core(bufferSize, [], false, 0, 0, [], [])
    {
      core := Core(bufferSize, [], false, 0, 0, [], []);
    }

    /** accepting: an Accept is waiting, which it does only at an empty queue. */
    method Enqueue(c: Conn, accepting: bool) returns (ok: bool)
      requires Valid() && (accepting ==> core.queue == [])
      modifies this
      ensures Valid() && core == Pushed(old(core), c, accepting) && HandsOver(old(core), core, c, accepting, ok)
      ensures ok <==> !old(core).closed && (accepting || |old(core).queue| < old(core).capacity)
    {
      if core.closed {
        return false;
      }
      if accepting {
        core := core.(taken := core.taken + [(c, Accepted)]);
        core := core.(enqueued := core.enqueued + [c]);
        return true;
      }
      if |core.queue| < core.capacity {
        core := core.(queue := core.queue + [c]);
        core := core.(enqueued := core.enqueued + [c]);
        return true;
      }
      return false;
    }

    /** An uninterrupted Close is the run of its steps. */
    method Close()
      requires Valid()
      modifies this
      ensures Valid() && core.closed && (old(core).closed || core.queue == [])
      ensures old(core).closed ==> core == old(core)
      ensures core == CloseAll(old(core), Waiting)
      ensures !old(core).closed ==>
                core == old(core).(
                          queue := [], closed := true, doneCloses := 1, queueCloses := 1,
                          taken := old(core).taken + AllDrained(old(core).queue))
    {
      if core.closed {
        assert CloseAll(core, Waiting) == CloseAll(core, Returned);
        return;
      }
      DrainEnds(core.(closed := true, doneCloses := core.doneCloses + 1));
      assert CloseAll(core, Waiting) == CloseAll(core.(closed := true), Marked);
      core := core.(closed := true);
      assert CloseAll(core, Marked) == CloseAll(core.(doneCloses := core.doneCloses + 1), Draining);
      core := core.(doneCloses := core.doneCloses + 1);
      while core.queue != []
        invariant core.closed && core.doneCloses == 1 && core.queueCloses == 0
        invariant CloseAll(core, Draining) == CloseAll(old(core), Waiting)
        decreases |core.queue|
      {
        core := Taken(core, Drained);
      }
      assert CloseAll(core, Draining) == CloseAll(core, Emptied);
      assert CloseAll(core, Emptied) == CloseAll(core.(queueCloses := core.queueCloses + 1), Returned);
      core := core.(queueCloses := core.queueCloses + 1);
    }
  }

  // ------------------------------------------------------------------ interleaved

  predicate Holds(c: Closer) {
    c.Marked? || c.Draining? || c.Emptied?
  }

  datatype State = State(core: Core, closers: seq<Closer>)

  datatype Action =
    | Enqueue(conn: Conn, accepting: bool)   // takes and releases the mutex
    | Accept                // receives from the queue, without the mutex
    | CallClose
    | CloseStep(closer: nat)

  ghost predicate MutexFree(s: State) {
    forall i :: 0 <= i < |s.closers| ==> !Holds(s.closers[i])
  }

  ghost predicate Enabled(s: State, a: Action) {
    match a
    case Enqueue(_, accepting) => MutexFree(s) && (accepting ==> s.core.queue == [] && !s.core.closed)
    case Accept => s.core.queue != []
    case CallClose => true
    case CloseStep(i) => i < |s.closers| && (Holds(s.closers[i]) || (s.closers[i].Waiting? && MutexFree(s)))
  }

  ghost function Step(s: State, a: Action): State
    requires Enabled(s, a)
  {
    match a
    case Enqueue(c, accepting) => s.(core := Pushed(s.core, c, accepting))
    case Accept => s.(core := Taken(s.core, Accepted))
    case CallClose => s.(closers := s.closers + [Waiting])
    case CloseStep(i) => var (l, c) := StepClose(s.core, s.closers[i]); State(l, s.closers[i := c])
  }

  /** A send in the machine succeeds exactly when the listener is open and an Accept is waiting or there is room. */
  lemma EnqueueHandsOver(s: State, c: Conn, accepting: bool)
    requires Enabled(s, Enqueue(c, accepting))
    ensures var ok := !s.core.closed && (accepting || |s.core.queue| < s.core.capacity);
            HandsOver(s.core, Step(s, Enqueue(c, accepting)).core, c, accepting, ok)
    ensures Step(s, Enqueue(c, accepting)).closers == s.closers
  {
  }

  /** The connection that a step takes out of the queue, and who gets it: an Accept, or a Close that drains. */
  function Takes(s: State, a: Action): seq<(Conn, Taker)> {
    match a
    case Accept => if s.core.queue != [] then [(s.core.queue[0], Accepted)] else []
    case CloseStep(i) =>
      if i < |s.closers| && s.closers[i].Draining? && s.core.queue != [] then [(s.core.queue[0], Drained)] else []
    case _ => []
  }

  /** Every other step takes the oldest connection or none, and leaves the rest of the queue. */
  lemma TakenFromFront(s: State, a: Action)
    requires Enabled(s, a) && !a.Enqueue?
    ensures var l, l' := s.core, Step(s, a).core;
            && l'.taken == l.taken + Takes(s, a) && l'.queue == l.queue[|Takes(s, a)|..]
            && l'.enqueued == l.enqueued && l'.capacity == l.capacity
    ensures a.Accept? ==> |Takes(s, a)| == 1
  {
  }

  function Conns(taken: seq<(Conn, Taker)>): (r: seq<Conn>)
    ensures |r| == |taken| && forall j :: 0 <= j < |taken| ==> r[j] == taken[j].0
  {
    seq(|taken|, j requires 0 <= j < |taken| => taken[j].0)
  }

  /** Where the closing stands: how often each channel is closed, and that an emptied queue stays empty. */
  ghost predicate Stage(l: Core, c: Closer) {
    match c
    case Marked => l.closed && l.doneCloses == 0 && l.queueCloses == 0
    case Draining => l.closed && l.doneCloses == 1 && l.queueCloses == 0
    case Emptied => l.closed && l.doneCloses == 1 && l.queueCloses == 0 && l.queue == []
    case _ => true
  }

  ghost predicate Inv(s: State) {
    var l := s.core;
    && l.enqueued == Conns(l.taken) + l.queue && |l.queue| <= l.capacity
    && (forall i :: 0 <= i < |s.closers| ==> Stage(l, s.closers[i]))
    && (forall i, j :: 0 <= i < j < |s.closers| ==> !(Holds(s.closers[i]) && Holds(s.closers[j])))
    && (MutexFree(s) ==> l.doneCloses == l.queueCloses == (if l.closed then 1 else 0) && (l.closed ==> l.queue == []))
  }

  lemma TakenKeepsOrder(l: Core, who: Taker)
    requires l.queue != [] && l.enqueued == Conns(l.taken) + l.queue
    ensures Taken(l, who).enqueued == Conns(Taken(l, who).taken) + Taken(l, who).queue
  {
    assert Conns(l.taken + [(l.queue[0], who)]) == Conns(l.taken) + [l.queue[0]];
    assert l.queue == [l.queue[0]] + l.queue[1..];
  }

  lemma PushedKeepsOrder(l: Core, c: Conn, accepting: bool)
    requires l.enqueued == Conns(l.taken) + l.queue && (accepting ==> l.queue == [])
    ensures Pushed(l, c, accepting).enqueued == Conns(Pushed(l, c, accepting).taken) + Pushed(l, c, accepting).queue
  {
    if accepting {
      assert Conns(l.taken + [(c, Accepted)]) == Conns(l.taken) + [c];
    }
  }

  lemma CloseStepInv(s: State, i: nat)
    requires Inv(s) && Enabled(s, CloseStep(i))
    ensures Inv(Step(s, CloseStep(i)))
  {
    var s' := Step(s, CloseStep(i));
    if s.closers[i].Draining? && s.core.queue != [] {
      TakenKeepsOrder(s.core, Drained);
    }
    forall j | 0 <= j < |s'.closers| ensures Stage(s'.core, s'.closers[j]) {
      if j != i && Holds(s.closers[i]) {
        assert !Holds(s.closers[j]);
      }
    }
    assert Holds(s'.closers[i]) ==> !MutexFree(s');
  }

  lemma StepInv(s: State, a: Action)
    requires Inv(s) && Enabled(s, a)
    ensures Inv(Step(s, a))
  {
    var s' := Step(s, a);
    match a
    case Enqueue(c, accepting) => PushedKeepsOrder(s.core, c, accepting);
    case Accept => TakenKeepsOrder(s.core, Accepted);
    case CallClose =>
      assert MutexFree(s') ==> MutexFree(s) by {
        assert forall i :: 0 <= i < |s.closers| ==> s.closers[i] == s'.closers[i];
      }
    case CloseStep(i) => CloseStepInv(s, i);
  }

  ghost predicate Execution(ss: seq<State>, acts: seq<Action>) {
    && |ss| == |acts| + 1
    && ss[0].closers == [] && ss[0].core == Core(ss[0].core.capacity, [], false, 0, 0, [], [])
    && forall i :: 0 <= i < |acts| ==> Enabled(ss[i], acts[i]) && ss[i + 1] == Step(ss[i], acts[i])
  }

  lemma {:induction false} AlwaysInv(ss: seq<State>, acts: seq<Action>, n: nat)
    requires Execution(ss, acts) && n < |ss|
    ensures Inv(ss[n])
  {
    if n == 0 {
    } else {
      AlwaysInv(ss, acts, n - 1);
      StepInv(ss[n - 1], acts[n - 1]);
      assert ss[n - 1 + 1] == Step(ss[n - 1], acts[n - 1]);
    }
  }

  /** Every connection that was enqueued is in exactly one place: received, in order, by one Accept or by the drain, or
      still queued; and each channel is closed at most once, the queue's only when it is empty. */
  lemma EveryConnOnce(ss: seq<State>, acts: seq<Action>, n: nat)
    requires Execution(ss, acts) && n < |ss|
    ensures var l := ss[n].core;
            && |l.enqueued| == |l.taken| + |l.queue|
            && (forall j :: 0 <= j < |l.taken| ==> l.taken[j].0 == l.enqueued[j])
            && (forall j :: 0 <= j < |l.queue| ==> l.queue[j] == l.enqueued[|l.taken| + j])
            && l.doneCloses <= 1 && l.queueCloses <= 1 && (l.queueCloses == 1 ==> l.closed && l.queue == [])
  {
    AlwaysInv(ss, acts, n);
    var s := ss[n];
    if i :| 0 <= i < |s.closers| && Holds(s.closers[i]) {
      assert Stage(s.core, s.closers[i]);
    }
  }

  /** No send on a closed channel: an Enqueue that gets to send finds the queue's channel open. And after the mark
      nothing is enqueued any more. */
  lemma NoSendAfterClose(ss: seq<State>, acts: seq<Action>, n: nat)
    requires Execution(ss, acts) && n < |acts| && acts[n].Enqueue?
    ensures ss[n + 1].core != ss[n].core ==> ss[n].core.queueCloses == 0 && ss[n].core.doneCloses == 0 && !ss[n].core.closed
    ensures ss[n].core.closed ==> ss[n + 1] == ss[n]
  {
    AlwaysInv(ss, acts, n);
  }

  /** Once a Close is over, every further Accept fails, and nothing is left in the queue. */
  lemma ClosedForGood(ss: seq<State>, acts: seq<Action>, n: nat)
    requires Execution(ss, acts) && n < |ss| && MutexFree(ss[n]) && ss[n].core.closed
    ensures AcceptFails(ss[n].core) && !Enabled(ss[n], Accept) && ss[n].core.queue == []
  {
    AlwaysInv(ss, acts, n);
  }

  /** An Accept fails from the moment the done channel is closed, which is only done to a listener that is marked closed; with
      the mutex free, exactly when it is. */
  lemma AcceptFailsIfClosed(ss: seq<State>, acts: seq<Action>, n: nat)
    requires Execution(ss, acts) && n < |ss|
    ensures AcceptFails(ss[n].core) <==> ss[n].core.doneCloses == 1
    ensures AcceptFails(ss[n].core) ==> ss[n].core.closed
    ensures MutexFree(ss[n]) ==> (AcceptFails(ss[n].core) <==> ss[n].core.closed)
  {
    AlwaysInv(ss, acts, n);
    if i :| 0 <= i < |ss[n].closers| && Holds(ss[n].closers[i]) {
      assert Stage(ss[n].core, ss[n].closers[i]);
    }
  }

  /** A Close always finishes: each of its steps leaves less to do, and nothing that can run meanwhile leaves more. */
  lemma CloseFinishes(ss: seq<State>, acts: seq<Action>, n: nat, i: nat)
    requires Execution(ss, acts) && n < |acts| && i < |ss[n].closers| && Holds(ss[n].closers[i])
    ensures Enabled(ss[n], CloseStep(i))
    ensures var before, after := StepsLeft(ss[n].core, ss[n].closers[i]), StepsLeft(ss[n + 1].core, ss[n + 1].closers[i]);
            after <= before && (acts[n] == CloseStep(i) ==> after < before)
  {
    AlwaysInv(ss, acts, n);
  }

  /** A call of Close waits for its turn. */
  lemma CloseIsCalled(s: State)
    ensures Enabled(s, CallClose) && Step(s, CallClose) == s.(closers := s.closers + [Waiting])
    ensures MutexFree(s) ==> Enabled(Step(s, CallClose), CloseStep(|s.closers|))
  {
    var s' := Step(s, CallClose);
    assert MutexFree(s) ==> MutexFree(s');
  }

  /** A connection can be enqueued, or handed to an Accept that waits at the empty queue of an open listener, whenever nobody
      holds the mutex; and an Accept can take a queued one at any time, whoever does. */
  lemma OnlyTheMutexIsWaitedFor(s: State, c: Conn, accepting: bool)
    requires MutexFree(s) && (accepting ==> s.core.queue == [] && !s.core.closed)
    ensures Enabled(s, Enqueue(c, accepting))
    ensures forall closers :: s.core.queue != [] ==> Enabled(State(s.core, closers), Accept)
  {
  }

  ghost predicate Leads(s: State, a: Action, s': State) {
    Enabled(s, a) && Step(s, a) == s'
  }

  lemma StartOfClose(l: Core)
    requires !l.closed && l.doneCloses == 0
    ensures var m := l.(closed := true); var d := m.(doneCloses := 1);
            && Leads(State(l, []), CallClose, State(l, [Waiting])) && Leads(State(l, [Waiting]), CloseStep(0), State(m, [Marked]))
            && Leads(State(m, [Marked]), CloseStep(0), State(d, [Draining]))
  {
    assert [Waiting][0 := Marked] == [Marked] && [Marked][0 := Draining] == [Draining];
  }

  /** Two connections are queued and the listener is being closed: an Accept gets the first one in the middle of the Close,
      which drains the other. */
  lemma {:induction false} AcceptInsideClose(a: Conn, b: Conn) returns (ss: seq<State>, acts: seq<Action>)
    ensures acts == [Enqueue(a, false), Enqueue(b, false), CallClose, CloseStep(0), CloseStep(0), Accept, CloseStep(0)]
    ensures Execution(ss, acts)
    ensures ss[7] == State(Core(2, [], true, 1, 0, [a, b], [(a, Accepted), (b, Drained)]), [Draining])
  {
    var l0 := Core(2, [], false, 0, 0, [], []);
    var l1 := Core(2, [a], false, 0, 0, [a], []);
    var l2 := Core(2, [a, b], false, 0, 0, [a, b], []);
    var m, d := l2.(closed := true), l2.(closed := true, doneCloses := 1);
    var d1 := d.(queue := [b], taken := [(a, Accepted)]);
    var d2 := d.(queue := [], taken := [(a, Accepted), (b, Drained)]);
    StartOfClose(l2);
    assert Leads(State(l0, []), Enqueue(a, false), State(l1, [])) && Leads(State(l1, []), Enqueue(b, false), State(l2, []));
    assert Leads(State(d, [Draining]), Accept, State(d1, [Draining]));
    assert [Draining][0 := Draining] == [Draining];
    assert Leads(State(d1, [Draining]), CloseStep(0), State(d2, [Draining]));
    ss := [State(l0, []), State(l1, []), State(l2, []), State(l2, [Waiting]), State(m, [Marked]), State(d, [Draining]),
      State(d1, [Draining]), State(d2, [Draining])];
    acts := [Enqueue(a, false), Enqueue(b, false), CallClose, CloseStep(0), CloseStep(0), Accept, CloseStep(0)];
    assert forall i :: 0 <= i < 7 ==> Leads(ss[i], acts[i], ss[i + 1]);
  }
}
