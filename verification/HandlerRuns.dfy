/** Run and Running on one handler, called by any number of goroutines. The deferred end of Run closes whatever
    channel the handler's done field holds at that moment. */
module HandlerRuns {
  import opened Options

  /** What the mutex guards: the flag, the done field, and for each channel ever made how often it has been closed. */
  datatype Guarded = Guarded(running: bool, done: Option<nat>, closes: seq<nat>)

  /** The first critical section of Run, for a goroutine that gets in. */
  function Entered(g: Guarded): Guarded {
    Guarded(true, Some(|g.closes|), g.closes + [0])
  }

  /** The deferred one. */
  function Left(g: Guarded): Guarded {
    if g.done.Some? && g.done.value < |g.closes|
    then Guarded(false, g.done, g.closes[g.done.value := g.closes[g.done.value] + 1])
    else g.(running := false)
  }

  class Runner {
    var running: bool
    var done: Option<nat>
    var closes: seq<nat>

    function View(): Guarded
      reads this
    {
      Guarded(running, done, closes)
    }

    constructor ()
      ensures View() == Guarded(false, None, [])
    {
      running, done, closes := false, None, [];
    }

    method BeginRun() returns (inside: bool)
      modifies this
      ensures inside == !old(running)
      ensures View() == if inside then Entered(old(View())) else old(View())
      ensures inside ==> running && done == Some(|old(closes)|) && closes == old(closes) + [0]
    {
      if running {
        return false;
      }
      running := true;
      done := Some(|closes|);
      closes := closes + [0];
      return true;
    }

    method EndRun()
      requires done.Some? && done.value < |closes|
      modifies this
      ensures View() == Left(old(View()))
      ensures !running && done == old(done) && closes == old(closes)[done.value := old(closes)[done.value] + 1]
    {
      running := false;
      closes := closes[done.value := closes[done.value] + 1];
    }

    method Running() returns (r: bool)
      ensures r == running
    {
      r := running;
    }
  }

  // ------------------------------------------------------------------ any number of goroutines

  /** A call of Run: not yet past the first critical section, inside with the channel it made, or over. */
  datatype Call = Calling | Inside(made: nat) | Over

  datatype State = State(guarded: Guarded, calls: seq<Call>)

  datatype Action = CallRun | Enter(call: nat) | Leave(call: nat)

  ghost predicate Enabled(s: State, a: Action) {
    match a
    case CallRun => true
    case Enter(i) => i < |s.calls| && s.calls[i] == Calling
    case Leave(i) => i < |s.calls| && s.calls[i].Inside?
  }

  ghost function Step(s: State, a: Action): State
    requires Enabled(s, a)
  {
    match a
    case CallRun => s.(calls := s.calls + [Calling])
    case Enter(i) =>
      if s.guarded.running then s.(calls := s.calls[i := Over])
      else State(Entered(s.guarded), s.calls[i := Inside(|s.guarded.closes|)])
    case Leave(i) => State(Left(s.guarded), s.calls[i := Over])
  }

  ghost predicate Inv(s: State) {
    var g := s.guarded;
    && (g.done.Some? ==> g.done.value < |g.closes|)
    && (forall i :: 0 <= i < |s.calls| && s.calls[i].Inside? ==> g.running && g.done == Some(s.calls[i].made))
    && (forall i, j :: 0 <= i < j < |s.calls| ==> !(s.calls[i].Inside? && s.calls[j].Inside?))
    && (g.running ==> exists i :: 0 <= i < |s.calls| && s.calls[i].Inside?)
    && (forall ch :: 0 <= ch < |g.closes| ==> g.closes[ch] == if g.running && g.done == Some(ch) then 0 else 1)
  }

  lemma StepInv(s: State, a: Action)
    requires Inv(s) && Enabled(s, a)
    ensures Inv(Step(s, a))
  {
    var s' := Step(s, a);
    match a
    case CallRun =>
      if s.guarded.running {
        var i :| 0 <= i < |s.calls| && s.calls[i].Inside?;
        assert s'.calls[i].Inside?;
      }
    case Enter(i) =>
      if s.guarded.running {
        var j :| 0 <= j < |s.calls| && s.calls[j].Inside?;
        assert s'.calls[j].Inside?;
      } else {
        assert s'.calls[i].Inside?;
      }
    case Leave(i) =>
  }

  ghost predicate Execution(ss: seq<State>, acts: seq<Action>) {
    && |ss| == |acts| + 1 && ss[0] == State(Guarded(false, None, []), [])
    && forall i :: 0 <= i < |acts| ==> Enabled(ss[i], acts[i]) && ss[i + 1] == Step(ss[i], acts[i])
  }

  lemma {:induction false} AlwaysInv(ss: seq<State>, acts: seq<Action>, n: nat)
    requires Execution(ss, acts) && n < |ss|
    ensures Inv(ss[n])
  {
    if n == 0 {
    } else {
      AlwaysInv(ss, acts, n - 1);
      StepInv(ss[n - 1], acts[n - 1]);
      assert ss[n - 1 + 1] == Step(ss[n - 1], acts[n - 1]);
    }
  }

  /** Whoever calls Run on a handler that is not running gets in, with a channel of its own; on one that is running, the
      call is over and nothing changes. */
  lemma EntersIfIdle(s: State, i: nat)
    requires Enabled(s, Enter(i))
    ensures var (g, s') := (s.guarded, Step(s, Enter(i)));
            if g.running then s'.guarded == g && s'.calls == s.calls[i := Over]
            else && s'.calls == s.calls[i := Inside(|g.closes|)]
                 && s'.guarded.running && s'.guarded.done == Some(|g.closes|) && s'.guarded.closes == g.closes + [0]
  {
  }

  /** Anybody can call Run at any time, and the call can go on at once. */
  lemma CallGoesOn(s: State)
    ensures Enabled(s, CallRun) && Step(s, CallRun) == s.(calls := s.calls + [Calling])
    ensures Enabled(Step(s, CallRun), Enter(|s.calls|))
  {
  }

  /** Whoever leaves clears the flag and is over. */
  lemma LeavesIdle(s: State, i: nat)
    requires Enabled(s, Leave(i))
    ensures !Step(s, Leave(i)).guarded.running && Step(s, Leave(i)).calls == s.calls[i := Over]
  {
  }

  /** At most one goroutine is inside the frp client's Run, and the flag is true exactly while one is. */
  lemma OneRunAtATime(ss: seq<State>, acts: seq<Action>, n: nat, i: nat, j: nat)
    requires Execution(ss, acts) && n < |ss| && i < |ss[n].calls| && j < |ss[n].calls|
    ensures ss[n].calls[i].Inside? && ss[n].calls[j].Inside? ==> i == j
    ensures ss[n].guarded.running <==> exists k :: 0 <= k < |ss[n].calls| && ss[n].calls[k].Inside?
  {
    AlwaysInv(ss, acts, n);
  }

  /** No channel is closed twice: the run that made it closes it, exactly once, and it alone is closed then. */
  lemma ClosedByItsMaker(ss: seq<State>, acts: seq<Action>, n: nat)
    requires Execution(ss, acts) && n < |acts|
    ensures forall ch :: 0 <= ch < |ss[n].guarded.closes| ==> ss[n].guarded.closes[ch] <= 1
    ensures acts[n].Leave? ==>
              var made, closes := ss[n].calls[acts[n].call].made, ss[n].guarded.closes;
              made < |closes| && closes[made] == 0 && ss[n + 1].guarded.closes == closes[made := 1]
    ensures !acts[n].Leave? ==> ss[n].guarded.closes <= ss[n + 1].guarded.closes
  {
    AlwaysInv(ss, acts, n);
  }

  /** When no call is left, every channel ever made has been closed. */
  lemma AllClosedInTheEnd(ss: seq<State>, acts: seq<Action>, n: nat, ch: nat)
    requires Execution(ss, acts) && n < |ss| && ch < |ss[n].guarded.closes|
    requires forall i :: 0 <= i < |ss[n].calls| ==> ss[n].calls[i] == Over
    ensures ss[n].guarded.closes[ch] == 1
  {
    AlwaysInv(ss, acts, n);
  }
}
