/** What holds of the debouncer under every interleaving: nothing submitted is lost or counted twice,
    stopping is permanent, and the machine settles. */
module DebouncerSafety {
  import opened Options
  import opened Events
  import opened InterleavedDebouncer
  import opened EmissionRuns

  // ------------------------------------------------------------------ conservation

  /** How many events of key k there are. */
  function Count(es: seq<Event>, k: Key): nat {
    |KeyEvents(es, k)|
  }

  function CountOf(k: Key): Weight {
    (e: Emit) => if e.event.key == k then e.count else 0
  }

  function EmittedCount(es: seq<Emit>, k: Key): nat {
    Sum(es, CountOf(k))
  }

  function Buffered(s: State, k: Key): nat {
    if Waiting(s, k) == [] then 0 else Waiting(s, k)[0].count
  }

  /** Every event of key k past its critical section has been emitted, is on its way, or is buffered: exactly one of the
      three. */
  ghost predicate Balanced(s: State, k: Key) {
    Count(s.submitted, k) == EmittedCount(s.emitted, k) + InFlight(s.threads, s.heap, CountOf(k)) + Buffered(s, k)
  }

  ghost predicate Conserved(s: State) {
    forall k :: Balanced(s, k)
  }

  /** The lengths of runs add up to what they are runs of. */
  lemma {:induction false} RunsLength(bs: seq<Emit>, es: seq<Event>, k: Key)
    requires Runs(bs, es) && forall i :: 0 <= i < |bs| ==> bs[i].event.key == k
    ensures Sum(bs, CountOf(k)) == |es|
  {
    if bs == [] {
    } else {
      RunsLength(bs[..|bs| - 1], es[..|es| - bs[|bs| - 1].count], k);
    }
  }

  lemma {:induction false} KeyEmitsOfKey(es: seq<Emit>, k: Key)
    ensures forall i :: 0 <= i < |KeyEmits(es, k)| ==> KeyEmits(es, k)[i].event.key == k
  {
    if es == [] {
    } else {
      KeyEmitsOfKey(es[..|es| - 1], k);
    }
  }

  lemma {:induction false} KeyEmitsCount(es: seq<Emit>, k: Key)
    ensures Sum(KeyEmits(es, k), CountOf(k)) == Sum(es, CountOf(k))
  {
    if es == [] {
    } else {
      var e := es[|es| - 1];
      KeyEmitsCount(es[..|es| - 1], k);
      if e.event.key == k {
        SumOne(KeyEmits(es[..|es| - 1], k), e, CountOf(k));
      } else {
        assert KeyEmits(es, k) == KeyEmits(es[..|es| - 1], k);
      }
    }
  }

  lemma {:induction false} PartedIsBalanced(s: State, bs: seq<Emit>, k: Key)
    requires Inv(s) && Parted(s, bs, k) && Out(s, CountOf(k)) == Sum(bs, CountOf(k))
    ensures Balanced(s, k)
  {
    var w := Waiting(s, k);
    KeyEmitsCount(bs, k);
    KeyEmitsOfKey(bs, k);
    if w == [] {
      assert KeyEmits(bs, k) + w == KeyEmits(bs, k);
    } else {
      assert w == [w[0]] && w[0].event.key == k;
      SumOne(KeyEmits(bs, k), w[0], CountOf(k));
    }
    RunsLength(KeyEmits(bs, k) + w, KeyEvents(s.submitted, k), k);
  }

  // ------------------------------------------------------------------ whole runs

  /** Conservation under every interleaving, together with the invariant it rests on. */
  lemma AlwaysConserved(ss: seq<State>, acts: seq<Action>, n: nat)
    requires Execution(ss, acts) && n < |ss|
    ensures Inv(ss[n]) && Conserved(ss[n])
  {
    AlwaysInv(ss, acts, n);
    forall k ensures Balanced(ss[n], k) {
      AlwaysParted(ss, acts, n, k, CountOf(k));
      PartedIsBalanced(ss[n], Decided(ss, acts, n), k);
    }
  }

  ghost predicate AllDone(s: State) {
    forall i :: 0 <= i < |s.threads| ==> s.threads[i] == Done
  }

  ghost predicate NoTimers(s: State) {
    forall id :: 0 <= id < |s.heap| ==> !s.heap[id].armed
  }

  lemma {:induction false} NothingInFlight(ts: seq<Thread>, heap: seq<Entry>, f: Weight)
    requires forall i :: 0 <= i < |ts| ==> ts[i] == Done
    ensures InFlight(ts, heap, f) == 0
  {
    if ts == [] {
    } else {
      NothingInFlight(ts[..|ts| - 1], heap, f);
    }
  }

  /** Once everything in flight has finished, after a stop or after the timers have run out, the counts emitted for a
      key sum exactly to its submissions. */
  lemma NothingLost(ss: seq<State>, acts: seq<Action>, n: nat, k: Key)
    requires Execution(ss, acts) && n < |ss|
    requires AllDone(ss[n]) && (ss[n].stopped || NoTimers(ss[n]))
    ensures ss[n].pending == map[] && EmittedCount(ss[n].emitted, k) == Count(ss[n].submitted, k)
  {
    var s := ss[n];
    AlwaysConserved(ss, acts, n);
    assert Balanced(s, k);
    NothingInFlight(s.threads, s.heap, CountOf(k));
  }

  function Is(x: Emit): Weight {
    (e: Emit) => if e == x then 1 else 0
  }

  lemma {:induction false} Multiplicity(es: seq<Emit>, x: Emit)
    ensures Sum(es, Is(x)) == multiset(es)[x]
  {
    if es == [] {
    } else {
      var front := es[..|es| - 1];
      Multiplicity(front, x);
      assert es == front + [es[|es| - 1]];
    }
  }

  /** What is emitted by then are, in some order, exactly the runs into which each key's submissions are cut, in the order in
      which they took the lock: every emission carries the last event of its run and the run's length. */
  lemma EmissionsAreRuns(ss: seq<State>, acts: seq<Action>, n: nat, k: Key)
    requires Execution(ss, acts) && n < |ss|
    requires AllDone(ss[n]) && (ss[n].stopped || NoTimers(ss[n]))
    ensures Runs(KeyEmits(Decided(ss, acts, n), k), KeyEvents(ss[n].submitted, k))
    ensures multiset(ss[n].emitted) == multiset(Decided(ss, acts, n))
  {
    var s, bs := ss[n], Decided(ss, acts, n);
    NothingLost(ss, acts, n, k);
    AlwaysParted(ss, acts, n, k, CountOf(k));
    assert KeyEmits(bs, k) + [] == KeyEmits(bs, k);
    forall x ensures multiset(s.emitted)[x] == multiset(bs)[x] {
      AlwaysParted(ss, acts, n, k, Is(x));
      NothingInFlight(s.threads, s.heap, Is(x));
      Multiplicity(s.emitted, x);
      Multiplicity(bs, x);
    }
  }

  /** And at any moment nothing is emitted that is not such a run. */
  lemma EmittedAreDecided(ss: seq<State>, acts: seq<Action>, n: nat)
    requires Execution(ss, acts) && n < |ss|
    ensures multiset(ss[n].emitted) <= multiset(Decided(ss, acts, n))
  {
    forall x ensures multiset(ss[n].emitted)[x] <= multiset(Decided(ss, acts, n))[x] {
      AlwaysParted(ss, acts, n, NoKey, Is(x));
      Multiplicity(ss[n].emitted, x);
      Multiplicity(Decided(ss, acts, n), x);
    }
  }

  // ------------------------------------------------------------------ exactly once

  /** An entry that has left the map does not change any more, and does not come back. */
  lemma RemovedIsFrozen(s: State, a: Action, id: nat)
    requires Inv(s) && Enabled(s, a) && id < |s.heap| && id !in s.pending.Values
    ensures var s' := Step(s, a);
            && id < |s'.heap| && id !in s'.pending.Values
            && s'.heap[id].key == s.heap[id].key && s'.heap[id].last == s.heap[id].last && s'.heap[id].count == s.heap[id].count
  {
    var s' := Step(s, a);
    if a.Submit? && a.event.Some? && a.event.value.key in s.pending {
      assert s.pending[a.event.value.key] in s.pending.Values;
    }
    assert forall k :: k in s'.pending && k in s.pending ==> s'.pending[k] == s.pending[k];
  }

  lemma {:induction false} FrozenForever(ss: seq<State>, acts: seq<Action>, m: nat, n: nat, id: nat)
    requires Execution(ss, acts) && m <= n < |ss|
    requires id < |ss[m].heap| && id !in ss[m].pending.Values
    ensures id < |ss[n].heap| && id !in ss[n].pending.Values
    ensures ss[n].heap[id].last == ss[m].heap[id].last && ss[n].heap[id].count == ss[m].heap[id].count
    decreases n
  {
    if m == n {
    } else {
      FrozenForever(ss, acts, m, n - 1, id);
      AlwaysConserved(ss, acts, n - 1);
      RemovedIsFrozen(ss[n - 1], acts[n - 1], id);
      assert ss[n - 1 + 1] == Step(ss[n - 1], acts[n - 1]);
    }
  }

  /** Step n of a run takes entry id out of the map. */
  ghost predicate Takes(ss: seq<State>, n: nat, id: nat)
    requires n + 1 < |ss|
  {
    id in ss[n].pending.Values && id !in ss[n + 1].pending.Values
  }

  /** No buffered occurrence is taken by two flushes, or by a flush and by Stop. */
  lemma TakenOnce(ss: seq<State>, acts: seq<Action>, m: nat, n: nat, id: nat)
    requires Execution(ss, acts) && m + 1 < |ss| && n + 1 < |ss|
    requires Takes(ss, m, id) && Takes(ss, n, id)
    ensures m == n
  {
    AlwaysConserved(ss, acts, m);
    AlwaysConserved(ss, acts, n);
    var a, b := if m < n then m else n, if m < n then n else m;
    if a < b {
      var k :| k in ss[a].pending && ss[a].pending[k] == id;
      assert |ss[a + 1].heap| >= |ss[a].heap|;
      FrozenForever(ss, acts, a + 1, b, id);
    }
  }

  // ------------------------------------------------------------------ stopping

  /** After a stop every submission becomes one emission of its own, a late flush finds nothing, and stopping again does
      nothing. */
  lemma StopIsPermanent(s: State, a: Action)
    requires Inv(s) && s.stopped && Enabled(s, a)
    ensures Step(s, a).stopped && Step(s, a).pending == map[]
    ensures a.Submit? && a.event.Some? ==>
              Step(s, a) == s.(threads := s.threads + [Emitting(a.event.value, 1)], submitted := s.submitted + [a.event.value])
    ensures a.Run? && s.threads[a.thread].Flushing? ==> Step(s, a) == s.(threads := s.threads[a.thread := Done])
    ensures a.Stop? ==> Step(s, a) == s
  {
  }

  lemma {:induction false} StaysStopped(ss: seq<State>, acts: seq<Action>, m: nat, n: nat)
    requires Execution(ss, acts) && m <= n < |ss| && ss[m].stopped
    ensures ss[n].stopped && ss[n].pending == map[]
    decreases n
  {
    AlwaysConserved(ss, acts, n);
    if m < n {
      StaysStopped(ss, acts, m, n - 1);
      assert ss[n - 1 + 1] == Step(ss[n - 1], acts[n - 1]);
    }
  }

  // ------------------------------------------------------------------ what a stop does not wait for

  /** The entry buffers events of key k. */
  predicate EntryBuffers(heap: seq<Entry>, id: nat, k: Key) {
    id < |heap| && heap[id].key == k && heap[id].count > 0
  }

  /** The thread has events of key k still to emit. */
  ghost predicate Carries(t: Thread, heap: seq<Entry>, k: Key) {
    match t
    case Holding(id) => EntryBuffers(heap, id, k)
    case Emitting(e, _) => e.key == k
    case Stopping(rest) => exists id :: id in rest && EntryBuffers(heap, id, k)
    case _ => false
  }

  ghost predicate KeysMatch(heap: seq<Entry>) {
    forall id :: 0 <= id < |heap| ==> heap[id].last.key == heap[id].key
  }

  lemma {:induction false} EntriesCarry(heap: seq<Entry>, ids: seq<nat>, k: Key)
    requires KeysMatch(heap)
    ensures EntriesWeight(heap, ids, CountOf(k)) > 0 <==> exists id :: id in ids && EntryBuffers(heap, id, k)
  {
    if ids == [] {
    } else {
      EntriesCarry(heap, ids[1..], k);
      assert forall id :: id in ids <==> id == ids[0] || id in ids[1..];
      assert EntryWeight(heap, ids[0], CountOf(k)) > 0 <==> EntryBuffers(heap, ids[0], k);
    }
  }

  lemma {:induction false} LoadCarries(t: Thread, heap: seq<Entry>, k: Key)
    requires KeysMatch(heap) && (t.Emitting? ==> t.count > 0)
    ensures Load(t, heap, CountOf(k)) > 0 <==> Carries(t, heap, k)
  {
    if t.Stopping? {
      EntriesCarry(heap, t.rest, k);
    }
  }

  lemma {:induction false} FlightCarries(ts: seq<Thread>, heap: seq<Entry>, k: Key)
    requires KeysMatch(heap) && forall i :: 0 <= i < |ts| && ts[i].Emitting? ==> ts[i].count > 0
    ensures InFlight(ts, heap, CountOf(k)) > 0 <==> exists i :: 0 <= i < |ts| && Carries(ts[i], heap, k)
  {
    if ts == [] {
    } else {
      var n := |ts| - 1;
      FlightCarries(ts[..n], heap, k);
      LoadCarries(ts[n], heap, k);
      if InFlight(ts, heap, CountOf(k)) > 0 && !Carries(ts[n], heap, k) {
        var i :| 0 <= i < n && Carries(ts[..n][i], heap, k);
        assert ts[i] == ts[..n][i];
      }
      if i :| 0 <= i < |ts| && Carries(ts[i], heap, k) {
        assert i < n ==> ts[..n][i] == ts[i];
      }
    }
  }

  /** In a stopped debouncer never more has been emitted for a key than was submitted, and less exactly as long as some
      thread carries events of that key: Stop itself on its way through what it collected, a submission that has not called
      emit yet, or a flush that took its entry before. */
  lemma StopLeavesCarried(ss: seq<State>, acts: seq<Action>, n: nat, k: Key)
    requires Execution(ss, acts) && n < |ss| && ss[n].stopped
    ensures EmittedCount(ss[n].emitted, k) <= Count(ss[n].submitted, k)
    ensures EmittedCount(ss[n].emitted, k) < Count(ss[n].submitted, k) <==>
            exists i :: 0 <= i < |ss[n].threads| && Carries(ss[n].threads[i], ss[n].heap, k)
  {
    AlwaysConserved(ss, acts, n);
    assert Balanced(ss[n], k);
    FlightCarries(ss[n].threads, ss[n].heap, k);
  }

  lemma {:induction false} FlushPastStop(e: Event, w: int) returns (ss: seq<State>, acts: seq<Action>)
    requires e.key != NoKey && w > 0
    ensures acts == [Submit(Some(e)), Run(0), Submit(Some(e)), Fire(0), Run(1), Stop([]), Run(2)] && Execution(ss, acts)
    ensures ss[7] == State(w, [Entry(e.key, e, 1, false)], map[], true, [Done, Holding(0), Done], [e, e], [Emit(e, 1)])
  {
    var s0 := State(w, [], map[], false, [], [], []);
    var s1 := Step(s0, Submit(Some(e)));
    var s2 := Step(s1, Run(0));
    var s3 := Step(s2, Submit(Some(e)));
    var s4 := Step(s3, Fire(0));
    var s5 := State(w, [Entry(e.key, e, 1, false)], map[], false, [Done, Holding(0)], [e, e], [Emit(e, 1)]);
    assert Step(s4, Run(1)) == s5;
    var s6 := Step(s5, Stop([]));
    var s7 := Step(s6, Run(2));
    ss := [s0, s1, s2, s3, s4, s5, s6, s7];
    acts := [Submit(Some(e)), Run(0), Submit(Some(e)), Fire(0), Run(1), Stop([]), Run(2)];
  }

  /** Stop does not wait for such a flush: here it is done while a flush that took its entry before still has one event to
      emit. */
  lemma {:induction false} StopLeavesFlush(e: Event, w: int) returns (ss: seq<State>, acts: seq<Action>)
    requires e.key != NoKey && w > 0
    ensures acts == [Submit(Some(e)), Run(0), Submit(Some(e)), Fire(0), Run(1), Stop([]), Run(2)] && Execution(ss, acts)
    ensures ss[7].stopped && ss[7].threads == [Done, Holding(0), Done] && Carries(ss[7].threads[1], ss[7].heap, e.key)
    ensures EmittedCount(ss[7].emitted, e.key) < Count(ss[7].submitted, e.key)
  {
    ss, acts := FlushPastStop(e, w);
    StopLeavesCarried(ss, acts, 7, e.key);
  }

  // ------------------------------------------------------------------ settling

  function ThreadWork(t: Thread): nat {
    match t
    case Flushing(_, _) => 3
    case Holding(_) => 2
    case Emitting(_, _) => 1
    case Stopping(rest) => 1 + |rest|
    case Done => 0
  }

  function ThreadsWork(ts: seq<Thread>): nat {
    if ts == [] then 0 else ThreadsWork(ts[..|ts| - 1]) + ThreadWork(ts[|ts| - 1])
  }

  function TimersWork(heap: seq<Entry>): nat {
    if heap == [] then 0 else TimersWork(heap[..|heap| - 1]) + (if heap[|heap| - 1].armed then 4 else 0)
  }

  /** How many steps the machine can take, at most, if nobody submits or stops. */
  function WorkLeft(s: State): nat {
    ThreadsWork(s.threads) + TimersWork(s.heap)
  }

  lemma {:induction false} ThreadsWorkReplace(ts: seq<Thread>, i: nat, t: Thread)
    requires i < |ts|
    ensures ThreadsWork(ts[i := t]) + ThreadWork(ts[i]) == ThreadsWork(ts) + ThreadWork(t)
  {
    var n := |ts| - 1;
    if i == n {
      assert ts[i := t][..n] == ts[..n];
    } else {
      assert ts[i := t][..n] == ts[..n][i := t];
      ThreadsWorkReplace(ts[..n], i, t);
    }
  }

  lemma {:induction false} TimersWorkDisarm(heap: seq<Entry>, id: nat)
    requires id < |heap| && heap[id].armed
    ensures TimersWork(heap[id := heap[id].(armed := false)]) + 4 == TimersWork(heap)
  {
    var n := |heap| - 1;
    var off := heap[id].(armed := false);
    if id == n {
      assert heap[id := off][..n] == heap[..n];
    } else {
      assert heap[id := off][..n] == heap[..n][id := off];
      TimersWorkDisarm(heap[..n], id);
    }
  }

  lemma FireWorks(s: State, id: nat)
    requires Enabled(s, Fire(id))
    ensures WorkLeft(Step(s, Fire(id))) + 1 == WorkLeft(s)
  {
    TimersWorkDisarm(s.heap, id);
    var t := Flushing(s.heap[id].key, id);
    assert (s.threads + [t])[..|s.threads|] == s.threads;
  }

  lemma RunWorks(s: State, i: nat)
    requires Enabled(s, Run(i))
    ensures DoRun(s, i).heap == s.heap && |DoRun(s, i).threads| == |s.threads|
    ensures DoRun(s, i).threads == s.threads[i := DoRun(s, i).threads[i]]
    ensures ThreadWork(DoRun(s, i).threads[i]) < ThreadWork(s.threads[i])
  {
  }

  /** Each step of a timer or of a thread uses some of the work up. */
  lemma InternalStepsWork(s: State, a: Action)
    requires Enabled(s, a) && (a.Fire? || a.Run?)
    ensures WorkLeft(Step(s, a)) < WorkLeft(s)
  {
    match a
    case Fire(id) => FireWorks(s, id);
    case Run(i) =>
      RunWorks(s, i);
      ThreadsWorkReplace(s.threads, i, DoRun(s, i).threads[i]);
  }

  lemma {:induction false} SomethingToDo(ts: seq<Thread>, heap: seq<Entry>) returns (a: Action)
    requires ThreadsWork(ts) + TimersWork(heap) > 0
    ensures a.Run? || a.Fire?
    ensures a.Run? ==> a.thread < |ts| && ts[a.thread] != Done
    ensures a.Fire? ==> a.entry < |heap| && heap[a.entry].armed
    decreases |ts| + |heap|
  {
    if ts != [] {
      if ts[|ts| - 1] != Done {
        a := Run(|ts| - 1);
      } else {
        a := SomethingToDo(ts[..|ts| - 1], heap);
      }
    } else if heap[|heap| - 1].armed {
      a := Fire(|heap| - 1);
    } else {
      a := SomethingToDo(ts, heap[..|heap| - 1]);
    }
  }

  lemma NoWorkLeft(s: State)
    requires WorkLeft(s) == 0
    ensures AllDone(s) && NoTimers(s)
  {
    forall i | 0 <= i < |s.threads| ensures s.threads[i] == Done {
      ThreadsWorkReplace(s.threads, i, Done);
    }
    forall id | 0 <= id < |s.heap| ensures !s.heap[id].armed {
      if s.heap[id].armed {
        TimersWorkDisarm(s.heap, id);
      }
    }
  }

  lemma {:induction false} LongerRun(ss: seq<State>, acts: seq<Action>, a: Action)
    requires Execution(ss, acts) && Enabled(ss[|acts|], a)
    ensures Execution(ss + [Step(ss[|acts|], a)], acts + [a])
  {
    var longer := ss + [Step(ss[|acts|], a)];
    forall i | 0 <= i < |acts + [a]|
      ensures Enabled(longer[i], (acts + [a])[i]) && longer[i + 1] == Step(longer[i], (acts + [a])[i])
    {
      if i < |acts| {
        assert Enabled(ss[i], acts[i]) && ss[i + 1] == Step(ss[i], acts[i]);
      }
    }
  }

  /** Left alone, every run can be finished: timers fire, flushes run, emissions are made, and then nothing is missing. */
  lemma {:induction false} Settles(ss: seq<State>, acts: seq<Action>) returns (ss': seq<State>, acts': seq<Action>)
    requires Execution(ss, acts)
    ensures Execution(ss', acts') && ss <= ss' && acts <= acts'
    ensures forall i :: |acts| <= i < |acts'| ==> acts'[i].Fire? || acts'[i].Run?
    ensures |acts'| - |acts| <= WorkLeft(ss[|acts|])
    ensures ss'[|acts'|].submitted == ss[|acts|].submitted && ss'[|acts'|].pending == map[]
    ensures forall k :: EmittedCount(ss'[|acts'|].emitted, k) == Count(ss[|acts|].submitted, k)
    decreases WorkLeft(ss[|acts|])
  {
    var s := ss[|acts|];
    if WorkLeft(s) == 0 {
      ss', acts' := ss, acts;
      NoWorkLeft(s);
      forall k ensures s.pending == map[] && EmittedCount(s.emitted, k) == Count(s.submitted, k) {
        NothingLost(ss, acts, |acts|, k);
      }
      NothingLost(ss, acts, |acts|, NoKey);
    } else {
      var a := SomethingToDo(s.threads, s.heap);
      InternalStepsWork(s, a);
      LongerRun(ss, acts, a);
      ss', acts' := Settles(ss + [Step(s, a)], acts + [a]);
    }
  }
}
