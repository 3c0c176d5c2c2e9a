/** The debouncer as a machine of interleaved steps. Each critical section is one step; a fired timer is a
    separate thread that looks its key up later, and every emission is a step of its own after the lock is released.
    Entries live in a heap, because threads keep hold of entries that have left the pending map. */
module InterleavedDebouncer {
  import opened Options
  import opened Events

  datatype Entry = Entry(key: Key, last: Event, count: nat, armed: bool)

  /** What a thread still has to do. */
  datatype Thread =
    | Flushing(key: Key, origin: nat)      // a fired timer, before it takes the lock; origin is the entry it belongs to
    | Holding(entry: nat)                  // flush, after it removed the entry from the map and released the lock
    | Emitting(event: Event, count: nat)   // about to call emit
    | Stopping(rest: seq<nat>)             // Stop, going through the entries it collected
    | Done

  datatype Emit = Emit(event: Event, count: nat)

  datatype State = State(
    window: int,
    heap: seq<Entry>,
    pending: map<Key, nat>,
    stopped: bool,
    threads: seq<Thread>,
    submitted: seq<Event>,  // events past their critical section, in lock order
    emitted: seq<Emit>)     // calls of emit that have been made

  datatype Action =
    | Submit(event: Option<Event>)  // the critical section of Submit, or its early exit
    | Fire(entry: nat)              // the runtime starts an entry's timer function
    | Run(thread: nat)              // a thread takes its next step
    | Stop(order: seq<nat>)         // the critical section of Stop, which meets the entries in this order

  ghost predicate Initial(s: State) {
    s.heap == [] && s.pending == map[] && !s.stopped && s.threads == [] && s.submitted == [] && s.emitted == []
  }

  /** order lists the pending entries, each once. */
  ghost predicate Collects(order: seq<nat>, pending: map<Key, nat>) {
    && (forall id :: id in order <==> id in pending.Values)
    && (forall i, j :: 0 <= i < j < |order| ==> order[i] != order[j])
  }

  ghost predicate Enabled(s: State, a: Action) {
    match a
    case Submit(_) => true
    case Fire(id) => id < |s.heap| && s.heap[id].armed
    case Run(i) => i < |s.threads| && s.threads[i] != Done
    case Stop(order) => s.stopped || Collects(order, s.pending)
  }

  function Disarmed(heap: seq<Entry>, ids: seq<nat>): (r: seq<Entry>)
    ensures |r| == |heap|
    ensures forall id :: 0 <= id < |heap| ==> r[id] == if id in ids then heap[id].(armed := false) else heap[id]
  {
    seq(|heap|, id requires 0 <= id < |heap| => if id in ids then heap[id].(armed := false) else heap[id])
  }

  function DoSubmit(s: State, e: Event): State {
    if e.key == NoKey || s.window <= 0 || s.stopped then
      s.(threads := s.threads + [Emitting(e, 1)], submitted := s.submitted + [e])
    else if e.key in s.pending then
      var id := s.pending[e.key];
      if id < |s.heap| then
        s.(heap := s.heap[id := s.heap[id].(last := e, count := s.heap[id].count + 1, armed := true)],
        submitted := s.submitted + [e])
      else s
    else
      s.(heap := s.heap + [Entry(e.key, e, 0, true)],
      pending := s.pending[e.key := |s.heap|],
      threads := s.threads + [Emitting(e, 1)],
      submitted := s.submitted + [e])
  }

  function DoRun(s: State, i: nat): State
    requires i < |s.threads|
  {
    match s.threads[i]
    case Flushing(key, _) =>
      if key in s.pending then s.(pending := s.pending - {key}, threads := s.threads[i := Holding(s.pending[key])])
      else s.(threads := s.threads[i := Done])
    case Holding(id) =>
      if id < |s.heap| && s.heap[id].count > 0 then s.(threads := s.threads[i := Emitting(s.heap[id].last, s.heap[id].count)])
      else s.(threads := s.threads[i := Done])
    case Emitting(e, n) => s.(emitted := s.emitted + [Emit(e, n)], threads := s.threads[i := Done])
    case Stopping(rest) =>
      if rest == [] then s.(threads := s.threads[i := Done])
      else if rest[0] < |s.heap| && s.heap[rest[0]].count > 0 then
        s.(emitted := s.emitted + [Emit(s.heap[rest[0]].last, s.heap[rest[0]].count)],
        threads := s.threads[i := Stopping(rest[1..])])
      else s.(threads := s.threads[i := Stopping(rest[1..])])
    case Done => s
  }

  ghost function Step(s: State, a: Action): State
    requires Enabled(s, a)
  {
    match a
    case Submit(event) => if event.None? then s else DoSubmit(s, event.value)
    case Fire(id) =>
      s.(heap := s.heap[id := s.heap[id].(armed := false)], threads := s.threads + [Flushing(s.heap[id].key, id)])
    case Run(i) => DoRun(s, i)
    case Stop(order) =>
      if s.stopped then s
      else s.(stopped := true, pending := map[], heap := Disarmed(s.heap, order), threads := s.threads + [Stopping(order)])
  }

  // ------------------------------------------------------------------ the invariant

  /** The entries a thread will still read. */
  function Held(t: Thread): seq<nat> {
    match t
    case Holding(id) => [id]
    case Stopping(rest) => rest
    case _ => []
  }

  /** Every pending entry sits under its own key, and its own timer is armed or has fired and not yet looked the key up. */
  ghost predicate NoneStranded(s: State) {
    forall k :: k in s.pending ==>
                  && s.pending[k] < |s.heap| && s.heap[s.pending[k]].key == k
                  && (s.heap[s.pending[k]].armed || Flushing(k, s.pending[k]) in s.threads)
  }

  predicate Distinct(ids: seq<nat>) {
    forall m, n :: 0 <= m < n < |ids| ==> ids[m] != ids[n]
  }

  predicate Apart(a: seq<nat>, b: seq<nat>) {
    forall id :: id in a ==> id !in b
  }

  predicate Left(ids: seq<nat>, size: nat, pending: set<nat>) {
    forall id :: id in ids ==> id < size && id !in pending
  }

  /** What a thread holds is an entry that has left the map, and no other thread holds it. */
  ghost predicate HeldOnce(ts: seq<Thread>, size: nat, pending: set<nat>) {
    && (forall i :: 0 <= i < |ts| ==> Distinct(Held(ts[i])) && Left(Held(ts[i]), size, pending))
    && (forall i, j :: 0 <= i < j < |ts| ==> Apart(Held(ts[i]), Held(ts[j])))
  }

  ghost predicate Shaped(s: State) {
    && (forall id :: 0 <= id < |s.heap| ==> s.heap[id].last.key == s.heap[id].key)
    && (s.stopped ==> s.pending == map[])
    && (forall k :: k in s.pending ==> k != NoKey && s.window > 0)
    && (forall i :: 0 <= i < |s.threads| && s.threads[i].Emitting? ==> s.threads[i].count > 0)
  }

  ghost predicate Inv(s: State) {
    Shaped(s) && NoneStranded(s) && HeldOnce(s.threads, |s.heap|, s.pending.Values)
  }

  lemma InitInv(s: State)
    requires Initial(s)
    ensures Inv(s)
  {
  }

  lemma HeldAfterReplace(ts: seq<Thread>, i: nat, t: Thread, size: nat, pending: set<nat>, pending': set<nat>)
    requires HeldOnce(ts, size, pending) && i < |ts| && pending' <= pending
    requires Distinct(Held(t)) && Left(Held(t), size, pending')
    requires forall id :: id in Held(t) ==> id in Held(ts[i]) || id in pending
    ensures HeldOnce(ts[i := t], size, pending')
  {
    var us := ts[i := t];
    forall j | 0 <= j < |us| ensures Distinct(Held(us[j])) && Left(Held(us[j]), size, pending') {
      assert Left(Held(ts[j]), size, pending);
    }
    forall j, k | 0 <= j < k < |us| ensures Apart(Held(us[j]), Held(us[k])) {
      assert Apart(Held(ts[j]), Held(ts[k]));
      assert Left(Held(ts[j]), size, pending) && Left(Held(ts[k]), size, pending);
    }
  }

  lemma HeldAfterAppend(ts: seq<Thread>, t: Thread, size: nat, size': nat, pending: set<nat>, pending': set<nat>)
    requires HeldOnce(ts, size, pending) && size <= size'
    requires forall id :: id in pending' ==> id in pending || id >= size
    requires Distinct(Held(t)) && Left(Held(t), size, pending')
    requires forall id :: id in Held(t) ==> id in pending
    ensures HeldOnce(ts + [t], size', pending')
  {
    var us := ts + [t];
    forall j | 0 <= j < |us| ensures Distinct(Held(us[j])) && Left(Held(us[j]), size', pending') {
      assert j < |ts| ==> Left(Held(ts[j]), size, pending);
    }
    forall j, k | 0 <= j < k < |us| ensures Apart(Held(us[j]), Held(us[k])) {
      assert k < |ts| ==> Apart(Held(ts[j]), Held(ts[k]));
      assert Left(Held(ts[j]), size, pending);
    }
  }

  lemma SubmitInv(s: State, e: Event)
    requires Inv(s)
    ensures Inv(DoSubmit(s, e))
  {
    var s' := DoSubmit(s, e);
    if e.key == NoKey || s.window <= 0 || s.stopped {
      HeldAfterAppend(s.threads, Emitting(e, 1), |s.heap|, |s.heap|, s.pending.Values, s.pending.Values);
    } else if e.key !in s.pending {
      assert forall id :: id in s'.pending.Values ==> id in s.pending.Values || id == |s.heap|;
      HeldAfterAppend(s.threads, Emitting(e, 1), |s.heap|, |s'.heap|, s.pending.Values, s'.pending.Values);
    }
    assert NoneStranded(s') by {
      forall k | k in s'.pending && k != e.key ensures s'.heap[s'.pending[k]] == s.heap[s.pending[k]] {
      }
      assert forall t :: t in s.threads ==> t in s'.threads;
    }
  }

  lemma FireInv(s: State, id: nat)
    requires Inv(s) && Enabled(s, Fire(id))
    ensures Inv(Step(s, Fire(id)))
  {
    var s' := Step(s, Fire(id));
    var t := Flushing(s.heap[id].key, id);
    HeldAfterAppend(s.threads, t, |s.heap|, |s.heap|, s.pending.Values, s.pending.Values);
    assert NoneStranded(s') by {
      assert s'.threads[|s.threads|] == t;
      assert forall u :: u in s.threads ==> u in s'.threads;
    }
  }

  /** flush takes over the entry that it removes from the map. */
  lemma TakeKeepsHeld(s: State, i: nat, key: Key, origin: nat)
    requires Inv(s) && i < |s.threads| && s.threads[i] == Flushing(key, origin) && key in s.pending
    ensures HeldOnce(s.threads[i := Holding(s.pending[key])], |s.heap|, (s.pending - {key}).Values)
  {
    var rest := s.pending - {key};
    assert forall k :: k in rest ==> s.heap[rest[k]].key == k;
    HeldAfterReplace(s.threads, i, Holding(s.pending[key]), |s.heap|, s.pending.Values, rest.Values);
  }

  /** Any other step of a thread holds on to no more than it did. */
  lemma LessHeld(s: State, i: nat, t: Thread)
    requires Inv(s) && i < |s.threads|
    requires Held(t) == [] || (s.threads[i].Stopping? && |s.threads[i].rest| > 0 && Held(t) == s.threads[i].rest[1..])
    ensures HeldOnce(s.threads[i := t], |s.heap|, s.pending.Values)
  {
    assert Left(Held(s.threads[i]), |s.heap|, s.pending.Values);
    assert forall id :: id in Held(t) ==> id in Held(s.threads[i]);
    HeldAfterReplace(s.threads, i, t, |s.heap|, s.pending.Values, s.pending.Values);
  }

  lemma RunStrandsNone(s: State, i: nat)
    requires Inv(s) && Enabled(s, Run(i))
    ensures NoneStranded(DoRun(s, i))
  {
    var s' := DoRun(s, i);
    forall k | k in s'.pending
      ensures s'.heap[s'.pending[k]].armed || Flushing(k, s'.pending[k]) in s'.threads
    {
      var id := s.pending[k];
      if !s.heap[id].armed {
        var j :| 0 <= j < |s.threads| && s.threads[j] == Flushing(k, id);
        assert s'.threads[j] == s.threads[j];
      }
    }
  }

  lemma RunShaped(s: State, i: nat)
    requires Inv(s) && Enabled(s, Run(i))
    ensures Shaped(DoRun(s, i))
  {
    assert s.threads[i].Flushing? || DoRun(s, i).pending == s.pending;
  }

  lemma RunInv(s: State, i: nat)
    requires Inv(s) && Enabled(s, Run(i))
    ensures Inv(DoRun(s, i))
  {
    var t := s.threads[i];
    if t.Flushing? && t.key in s.pending {
      TakeKeepsHeld(s, i, t.key, t.origin);
    } else {
      LessHeld(s, i, DoRun(s, i).threads[i]);
    }
    RunStrandsNone(s, i);
    RunShaped(s, i);
  }

  lemma StopInv(s: State, order: seq<nat>)
    requires Inv(s) && Enabled(s, Stop(order))
    ensures Inv(Step(s, Stop(order)))
  {
    if !s.stopped {
      var none: map<Key, nat> := map[];
      HeldAfterAppend(s.threads, Stopping(order), |s.heap|, |s.heap|, s.pending.Values, none.Values);
    }
  }

  lemma StepInv(s: State, a: Action)
    requires Inv(s) && Enabled(s, a)
    ensures Inv(Step(s, a))
  {
    match a
    case Submit(event) => if event.Some? { SubmitInv(s, event.value); }
    case Fire(id) => FireInv(s, id);
    case Run(i) => RunInv(s, i);
    case Stop(order) => StopInv(s, order);
  }

  /** A run: any number of steps in any order, from the beginning. */
  ghost predicate Execution(ss: seq<State>, acts: seq<Action>) {
    && |ss| == |acts| + 1 && Initial(ss[0])
    && forall i :: 0 <= i < |acts| ==> Enabled(ss[i], acts[i]) && ss[i + 1] == Step(ss[i], acts[i])
  }

  lemma {:induction false} AlwaysInv(ss: seq<State>, acts: seq<Action>, n: nat)
    requires Execution(ss, acts) && n < |ss|
    ensures Inv(ss[n])
  {
    if n == 0 {
      InitInv(ss[0]);
    } else {
      AlwaysInv(ss, acts, n - 1);
      StepInv(ss[n - 1], acts[n - 1]);
      assert ss[n - 1 + 1] == Step(ss[n - 1], acts[n - 1]);
    }
  }

  lemma {:induction false} Listed(ids: set<nat>) returns (order: seq<nat>)
    ensures forall id :: id in order <==> id in ids
    ensures forall i, j :: 0 <= i < j < |order| ==> order[i] != order[j]
    decreases ids
  {
    if ids == {} {
      order := [];
    } else {
      var id :| id in ids;
      var rest := Listed(ids - {id});
      order := rest + [id];
    }
  }

  /** Nobody waits for the others: in every state an event can be submitted, the debouncer can be stopped, a running timer
      can fire and a thread that is not done can go on. */
  lemma NeverBlocks(s: State, event: Option<Event>, id: nat, i: nat) returns (order: seq<nat>)
    ensures Enabled(s, Submit(event)) && Enabled(s, Stop(order))
    ensures id < |s.heap| && s.heap[id].armed ==> Enabled(s, Fire(id))
    ensures i < |s.threads| && s.threads[i] != Done ==> Enabled(s, Run(i))
  {
    order := Listed(s.pending.Values);
  }
}
