/** What the interleaved debouncer emits, told from what was submitted: for each key the submissions, in the order in which
    they took the lock, are cut into consecutive runs, and each run is emitted once, as its last event and its length. */
module EmissionRuns {
  import opened Options
  import opened Events
  import opened InterleavedDebouncer

  // ------------------------------------------------------------------ adding up emissions

  /** Anything to be added up over emissions: a count, or how often one of them occurs. */
  type Weight = Emit -> nat

  function Sum(es: seq<Emit>, f: Weight): nat {
    if es == [] then 0 else Sum(es[..|es| - 1], f) + f(es[|es| - 1])
  }

  lemma SumOne(es: seq<Emit>, e: Emit, f: Weight)
    ensures Sum(es + [e], f) == Sum(es, f) + f(e)
  {
    assert (es + [e])[..|es|] == es;
  }

  lemma {:induction false} SumConcat(es: seq<Emit>, ds: seq<Emit>, f: Weight)
    ensures Sum(es + ds, f) == Sum(es, f) + Sum(ds, f)
  {
    if ds == [] {
      assert es + ds == es;
    } else {
      assert (es + ds)[..|es + ds| - 1] == es + ds[..|ds| - 1];
      SumConcat(es, ds[..|ds| - 1], f);
    }
  }

  function EntryWeight(heap: seq<Entry>, id: nat, f: Weight): nat {
    if id < |heap| && heap[id].count > 0 then f(Emit(heap[id].last, heap[id].count)) else 0
  }

  function EntriesWeight(heap: seq<Entry>, ids: seq<nat>, f: Weight): nat {
    if ids == [] then 0 else EntryWeight(heap, ids[0], f) + EntriesWeight(heap, ids[1..], f)
  }

  /** What a thread will still emit. */
  function Load(t: Thread, heap: seq<Entry>, f: Weight): nat {
    match t
    case Holding(id) => EntryWeight(heap, id, f)
    case Emitting(e, n) => f(Emit(e, n))
    case Stopping(rest) => EntriesWeight(heap, rest, f)
    case _ => 0
  }

  function InFlight(ts: seq<Thread>, heap: seq<Entry>, f: Weight): nat {
    if ts == [] then 0 else InFlight(ts[..|ts| - 1], heap, f) + Load(ts[|ts| - 1], heap, f)
  }

  lemma FlightAppend(ts: seq<Thread>, t: Thread, heap: seq<Entry>, f: Weight)
    ensures InFlight(ts + [t], heap, f) == InFlight(ts, heap, f) + Load(t, heap, f)
  {
    assert (ts + [t])[..|ts|] == ts;
  }

  lemma {:induction false} FlightReplace(ts: seq<Thread>, i: nat, t: Thread, heap: seq<Entry>, f: Weight)
    requires i < |ts|
    ensures InFlight(ts[i := t], heap, f) + Load(ts[i], heap, f) == InFlight(ts, heap, f) + Load(t, heap, f)
  {
    var n := |ts| - 1;
    if i == n {
      assert ts[i := t][..n] == ts[..n];
    } else {
      assert ts[i := t][..n] == ts[..n][i := t];
      FlightReplace(ts[..n], i, t, heap, f);
    }
  }

  /** Two heaps agree on an entry's event and count. */
  predicate SameEntry(heap: seq<Entry>, heap': seq<Entry>, id: nat) {
    id < |heap| && id < |heap'| && heap[id].last == heap'[id].last && heap[id].count == heap'[id].count
  }

  lemma {:induction false} EntriesFrame(heap: seq<Entry>, heap': seq<Entry>, ids: seq<nat>, f: Weight)
    requires forall id :: id in ids ==> SameEntry(heap, heap', id)
    ensures EntriesWeight(heap, ids, f) == EntriesWeight(heap', ids, f)
  {
    if ids == [] {
    } else {
      assert SameEntry(heap, heap', ids[0]);
      EntriesFrame(heap, heap', ids[1..], f);
    }
  }

  /** Only the entries that threads hold matter to what is in flight. */
  lemma {:induction false} FlightFrame(ts: seq<Thread>, heap: seq<Entry>, heap': seq<Entry>, f: Weight)
    requires forall i, id :: 0 <= i < |ts| && id in Held(ts[i]) ==> SameEntry(heap, heap', id)
    ensures InFlight(ts, heap, f) == InFlight(ts, heap', f)
  {
    if ts == [] {
    } else {
      var t := ts[|ts| - 1];
      FlightFrame(ts[..|ts| - 1], heap, heap', f);
      assert forall id :: id in Held(t) ==> SameEntry(heap, heap', id);
      if t.Stopping? {
        EntriesFrame(heap, heap', t.rest, f);
      } else if t.Holding? {
        assert t.entry in Held(t);
      }
    }
  }

  lemma HeldFrame(s: State, heap': seq<Entry>, f: Weight)
    requires Inv(s) && |heap'| >= |s.heap|
    requires forall id :: 0 <= id < |s.heap| && id !in s.pending.Values ==> SameEntry(s.heap, heap', id)
    ensures InFlight(s.threads, s.heap, f) == InFlight(s.threads, heap', f)
  {
    forall i, id | 0 <= i < |s.threads| && id in Held(s.threads[i]) ensures SameEntry(s.heap, heap', id) {
      assert Left(Held(s.threads[i]), |s.heap|, s.pending.Values);
    }
    FlightFrame(s.threads, s.heap, heap', f);
  }

  // ------------------------------------------------------------------ setting apart

  function TakenOne(heap: seq<Entry>, id: nat): seq<Emit> {
    if id < |heap| && heap[id].count > 0 then [Emit(heap[id].last, heap[id].count)] else []
  }

  /** What the entries that Stop collects are emitted as. */
  function Taken(heap: seq<Entry>, ids: seq<nat>): seq<Emit> {
    if ids == [] then [] else TakenOne(heap, ids[0]) + Taken(heap, ids[1..])
  }

  predicate Buffers(s: State, e: Event) {
    e.key != NoKey && s.window > 0 && !s.stopped && e.key in s.pending
  }

  /** The emissions that a step decides on: from then on no submission joins them. */
  function SetsApart(s: State, a: Action): seq<Emit> {
    match a
    case Submit(event) => if event.None? || Buffers(s, event.value) then [] else [Emit(event.value, 1)]
    case Fire(_) => []
    case Run(i) =>
      if i < |s.threads| && s.threads[i].Flushing? && s.threads[i].key in s.pending
      then TakenOne(s.heap, s.pending[s.threads[i].key]) else []
    case Stop(order) => if s.stopped then [] else Taken(s.heap, order)
  }

  lemma TakenOneWeight(heap: seq<Entry>, id: nat, f: Weight)
    ensures Sum(TakenOne(heap, id), f) == EntryWeight(heap, id, f)
  {
    if TakenOne(heap, id) != [] {
      SumOne([], TakenOne(heap, id)[0], f);
      assert [] + [TakenOne(heap, id)[0]] == TakenOne(heap, id);
    }
  }

  lemma {:induction false} TakenWeight(heap: seq<Entry>, ids: seq<nat>, f: Weight)
    ensures Sum(Taken(heap, ids), f) == EntriesWeight(heap, ids, f)
  {
    if ids == [] {
    } else {
      TakenWeight(heap, ids[1..], f);
      SumConcat(TakenOne(heap, ids[0]), Taken(heap, ids[1..]), f);
      TakenOneWeight(heap, ids[0], f);
    }
  }

  function Out(s: State, f: Weight): nat {
    Sum(s.emitted, f) + InFlight(s.threads, s.heap, f)
  }

  lemma SubmitApart(s: State, e: Event, f: Weight)
    requires Inv(s)
    ensures Out(DoSubmit(s, e), f) == Out(s, f) + Sum(SetsApart(s, Submit(Some(e))), f)
  {
    var s' := DoSubmit(s, e);
    if Buffers(s, e) {
      assert s.pending[e.key] in s.pending.Values;
      HeldFrame(s, s'.heap, f);
    } else {
      HeldFrame(s, s'.heap, f);
      FlightAppend(s.threads, Emitting(e, 1), s'.heap, f);
      SumOne([], Emit(e, 1), f);
      assert [] + [Emit(e, 1)] == [Emit(e, 1)];
    }
  }

  lemma FireApart(s: State, id: nat, f: Weight)
    requires Inv(s) && Enabled(s, Fire(id))
    ensures Out(Step(s, Fire(id)), f) == Out(s, f)
  {
    var s' := Step(s, Fire(id));
    FlightAppend(s.threads, Flushing(s.heap[id].key, id), s'.heap, f);
    HeldFrame(s, s'.heap, f);
  }

  /** From s to s' thread i moved part of its load to what has been emitted, and nothing else changed. */
  ghost predicate MovesLoad(s: State, s': State, i: nat, f: Weight)
    requires i < |s.threads|
  {
    && s'.heap == s.heap && |s'.threads| == |s.threads| && s'.threads == s.threads[i := s'.threads[i]]
    && Load(s'.threads[i], s.heap, f) + Sum(s'.emitted, f) == Load(s.threads[i], s.heap, f) + Sum(s.emitted, f)
  }

  lemma HoldingMoves(s: State, i: nat, f: Weight)
    requires i < |s.threads| && (s.threads[i].Holding? || s.threads[i].Emitting? || s.threads[i].Done?)
    ensures MovesLoad(s, DoRun(s, i), i, f)
  {
    var t := s.threads[i];
    if t.Emitting? {
      SumOne(s.emitted, Emit(t.event, t.count), f);
    }
  }

  lemma StoppingMoves(s: State, i: nat, f: Weight)
    requires i < |s.threads| && s.threads[i].Stopping?
    ensures MovesLoad(s, DoRun(s, i), i, f)
  {
    var rest := s.threads[i].rest;
    if rest != [] && rest[0] < |s.heap| && s.heap[rest[0]].count > 0 {
      SumOne(s.emitted, Emit(s.heap[rest[0]].last, s.heap[rest[0]].count), f);
    }
  }

  lemma RunApart(s: State, i: nat, f: Weight)
    requires Inv(s) && Enabled(s, Run(i))
    ensures Out(DoRun(s, i), f) == Out(s, f) + Sum(SetsApart(s, Run(i)), f)
  {
    var t := s.threads[i];
    if t.Flushing? {
      if t.key in s.pending {
        TakenOneWeight(s.heap, s.pending[t.key], f);
      }
    } else if t.Stopping? {
      StoppingMoves(s, i, f);
    } else {
      HoldingMoves(s, i, f);
    }
    FlightReplace(s.threads, i, DoRun(s, i).threads[i], s.heap, f);
  }

  lemma StopApart(s: State, order: seq<nat>, f: Weight)
    requires Inv(s) && Enabled(s, Stop(order)) && !s.stopped
    ensures Out(Step(s, Stop(order)), f) == Out(s, f) + Sum(Taken(s.heap, order), f)
  {
    var heap' := Disarmed(s.heap, order);
    FlightAppend(s.threads, Stopping(order), heap', f);
    HeldFrame(s, heap', f);
    forall id | id in order ensures SameEntry(s.heap, heap', id) {
      assert id in s.pending.Values;
    }
    EntriesFrame(s.heap, heap', order, f);
    TakenWeight(s.heap, order, f);
  }

  /** Whatever is added up: a step adds to what was emitted or is on its way exactly what it sets apart. */
  lemma StepApart(s: State, a: Action, f: Weight)
    requires Inv(s) && Enabled(s, a)
    ensures Out(Step(s, a), f) == Out(s, f) + Sum(SetsApart(s, a), f)
  {
    match a
    case Submit(event) => if event.Some? { SubmitApart(s, event.value, f); }
    case Fire(id) => FireApart(s, id, f);
    case Run(i) => RunApart(s, i, f);
    case Stop(order) => if !s.stopped { StopApart(s, order, f); }
  }

  // ------------------------------------------------------------------ runs of submissions

  function KeyEvents(es: seq<Event>, k: Key): seq<Event> {
    if es == [] then []
    else KeyEvents(es[..|es| - 1], k) + if es[|es| - 1].key == k then [es[|es| - 1]] else []
  }

  function KeyEmits(es: seq<Emit>, k: Key): seq<Emit> {
    if es == [] then []
    else KeyEmits(es[..|es| - 1], k) + if es[|es| - 1].event.key == k then [es[|es| - 1]] else []
  }

  /** bs cuts es into consecutive runs, each given by its last event and its length. */
  ghost predicate Runs(bs: seq<Emit>, es: seq<Event>) {
    if bs == [] then es == []
    else
      var b := bs[|bs| - 1];
      0 < b.count <= |es| && b.event == es[|es| - 1] && Runs(bs[..|bs| - 1], es[..|es| - b.count])
  }

  lemma KeyEventsOne(es: seq<Event>, e: Event, k: Key)
    ensures KeyEvents(es + [e], k) == KeyEvents(es, k) + if e.key == k then [e] else []
  {
    assert (es + [e])[..|es|] == es;
  }

  lemma {:induction false} KeyEmitsConcat(es: seq<Emit>, ds: seq<Emit>, k: Key)
    ensures KeyEmits(es + ds, k) == KeyEmits(es, k) + KeyEmits(ds, k)
  {
    if ds == [] {
      assert es + ds == es;
    } else {
      assert (es + ds)[..|es + ds| - 1] == es + ds[..|ds| - 1];
      KeyEmitsConcat(es, ds[..|ds| - 1], k);
    }
  }

  lemma KeyEmitsOne(e: Emit, k: Key)
    ensures KeyEmits([e], k) == if e.event.key == k then [e] else []
  {
    assert [e][..0] == [];
  }

  /** The last run grows by one event, or a new one begins. */
  lemma {:induction false} RunsGrow(bs: seq<Emit>, w: seq<Emit>, es: seq<Event>, e: Event)
    requires Runs(bs + w, es) && |w| <= 1
    ensures Runs(bs + [Emit(e, (if w == [] then 0 else w[0].count) + 1)], es + [e])
  {
    var n := (if w == [] then 0 else w[0].count) + 1;
    var grown := bs + [Emit(e, n)];
    assert grown[..|grown| - 1] == bs;
    if w == [] {
      assert bs + w == bs && (es + [e])[..|es|] == es;
    } else {
      assert (bs + w)[..|bs + w| - 1] == bs;
      assert (es + [e])[..|es| + 1 - n] == es[..|es| - w[0].count];
    }
  }

  /** What is buffered for key k, as the emission it would make. */
  function Waiting(s: State, k: Key): (w: seq<Emit>)
    ensures |w| <= 1
  {
    if k in s.pending then TakenOne(s.heap, s.pending[k]) else []
  }

  /** For key k, what has been set apart, and then what is buffered. */
  function Parts(s: State, bs: seq<Emit>, k: Key): seq<Emit> {
    KeyEmits(bs, k) + Waiting(s, k)
  }

  /** They are runs of all that was submitted for the key. */
  ghost predicate Parted(s: State, bs: seq<Emit>, k: Key) {
    Runs(Parts(s, bs, k), KeyEvents(s.submitted, k))
  }

  /** A step by which neither changes keeps that. */
  lemma {:induction false} SameParts(s: State, bs: seq<Emit>, s': State, bs': seq<Emit>, k: Key)
    requires Parted(s, bs, k) && Parts(s', bs', k) == Parts(s, bs, k)
    requires KeyEvents(s'.submitted, k) == KeyEvents(s.submitted, k)
    ensures Parted(s', bs', k)
  {
  }

  lemma BufferGrows(s: State, e: Event, bs: seq<Emit>, k: Key)
    requires Inv(s) && Buffers(s, e)
    ensures e.key != k ==> Parts(DoSubmit(s, e), bs, k) == Parts(s, bs, k)
    ensures e.key == k ==> Parts(DoSubmit(s, e), bs, k) ==
                           KeyEmits(bs, k) + [Emit(e, (if Waiting(s, k) == [] then 0 else Waiting(s, k)[0].count) + 1)]
  {
    assert s.heap[s.pending[e.key]].key == e.key;
    assert k in s.pending ==> s.heap[s.pending[k]].key == k;
  }

  lemma {:induction false} BufferParts(s: State, e: Event, bs: seq<Emit>, k: Key)
    requires Inv(s) && Buffers(s, e) && Parted(s, bs, k)
    ensures Parted(DoSubmit(s, e), bs, k)
  {
    KeyEventsOne(s.submitted, e, k);
    BufferGrows(s, e, bs, k);
    if e.key == k {
      RunsGrow(KeyEmits(bs, k), Waiting(s, k), KeyEvents(s.submitted, k), e);
    } else {
      assert KeyEvents(s.submitted, k) + [] == KeyEvents(s.submitted, k);
      SameParts(s, bs, DoSubmit(s, e), bs, k);
    }
  }

  lemma StraightWaiting(s: State, e: Event, k: Key)
    requires Inv(s) && !Buffers(s, e)
    ensures Waiting(DoSubmit(s, e), k) == Waiting(s, k) && (e.key == k ==> Waiting(s, k) == [])
  {
  }

  lemma StraightGrows(s: State, e: Event, bs: seq<Emit>, k: Key)
    requires Inv(s) && !Buffers(s, e)
    ensures Parts(DoSubmit(s, e), bs + [Emit(e, 1)], k) ==
            if e.key == k then KeyEmits(bs, k) + [Emit(e, 1)] else Parts(s, bs, k)
    ensures e.key == k ==> Waiting(s, k) == []
  {
    StraightWaiting(s, e, k);
    KeyEmitsConcat(bs, [Emit(e, 1)], k);
    KeyEmitsOne(Emit(e, 1), k);
  }

  lemma {:induction false} StraightParts(s: State, e: Event, bs: seq<Emit>, k: Key)
    requires Inv(s) && !Buffers(s, e) && Parted(s, bs, k)
    ensures Parted(DoSubmit(s, e), bs + [Emit(e, 1)], k)
  {
    KeyEventsOne(s.submitted, e, k);
    StraightGrows(s, e, bs, k);
    if e.key == k {
      RunsGrow(KeyEmits(bs, k), [], KeyEvents(s.submitted, k), e);
    } else {
      assert KeyEvents(s.submitted, k) + [] == KeyEvents(s.submitted, k);
      SameParts(s, bs, DoSubmit(s, e), bs + [Emit(e, 1)], k);
    }
  }

  lemma KeyEmitsTaken(heap: seq<Entry>, id: nat, k: Key)
    requires id < |heap|
    ensures KeyEmits(TakenOne(heap, id), k) == if heap[id].last.key == k then TakenOne(heap, id) else []
  {
    if TakenOne(heap, id) != [] {
      KeyEmitsOne(TakenOne(heap, id)[0], k);
    }
  }

  lemma Associates(a: seq<Emit>, b: seq<Emit>, c: seq<Emit>)
    ensures (a + b) + c == a + (b + c)
  {
  }

  /** Taking an entry sets apart what was buffered, and buffers nothing. */
  lemma TakeSameParts(s: State, bs: seq<Emit>, k: Key, l: Key, s': State)
    requires Inv(s) && l in s.pending && s'.pending == s.pending - {l} && s'.heap == s.heap
    ensures Parts(s', bs + TakenOne(s.heap, s.pending[l]), k) == Parts(s, bs, k)
  {
    var out := TakenOne(s.heap, s.pending[l]);
    KeyEmitsTaken(s.heap, s.pending[l], k);
    assert Waiting(s, k) == KeyEmits(out, k) + Waiting(s', k);
    KeyEmitsConcat(bs, out, k);
    Associates(KeyEmits(bs, k), KeyEmits(out, k), Waiting(s', k));
  }

  lemma RunSameParts(s: State, i: nat, bs: seq<Emit>, k: Key)
    requires Inv(s) && Enabled(s, Run(i))
    ensures Parts(DoRun(s, i), bs + SetsApart(s, Run(i)), k) == Parts(s, bs, k)
    ensures DoRun(s, i).submitted == s.submitted
  {
    var t := s.threads[i];
    if t.Flushing? && t.key in s.pending {
      TakeSameParts(s, bs, k, t.key, DoRun(s, i));
    } else {
      assert bs + [] == bs && Waiting(DoRun(s, i), k) == Waiting(s, k);
    }
  }

  /** Of distinct entries in the map, at most one is key k's. */
  lemma {:induction false} TakenOfKey(s: State, ids: seq<nat>, k: Key)
    requires Inv(s) && Distinct(ids) && forall id :: id in ids ==> id in s.pending.Values
    ensures KeyEmits(Taken(s.heap, ids), k) ==
            if k in s.pending && s.pending[k] in ids then TakenOne(s.heap, s.pending[k]) else []
  {
    if ids == [] {
    } else {
      var id, rest := ids[0], ids[1..];
      TakenOfKey(s, rest, k);
      KeyEmitsConcat(TakenOne(s.heap, id), Taken(s.heap, rest), k);
      assert id in s.pending.Values;
      var l :| l in s.pending && s.pending[l] == id;
      assert s.heap[id].last.key == s.heap[id].key == l;
      KeyEmitsTaken(s.heap, id, k);
      assert forall x :: x in ids <==> x == id || x in rest;
      assert id !in rest;
    }
  }

  lemma StopSameParts(s: State, order: seq<nat>, bs: seq<Emit>, k: Key)
    requires Inv(s) && Enabled(s, Stop(order)) && !s.stopped
    ensures Parts(Step(s, Stop(order)), bs + Taken(s.heap, order), k) == Parts(s, bs, k)
  {
    TakenOfKey(s, order, k);
    KeyEmitsConcat(bs, Taken(s.heap, order), k);
    if k in s.pending {
      assert s.pending[k] in s.pending.Values;
    }
    assert Waiting(Step(s, Stop(order)), k) == [];
  }

  lemma OthersSameParts(s: State, a: Action, bs: seq<Emit>, k: Key)
    requires Inv(s) && Enabled(s, a) && (a.Submit? ==> a.event.None?)
    ensures Parts(Step(s, a), bs + SetsApart(s, a), k) == Parts(s, bs, k) && Step(s, a).submitted == s.submitted
  {
    assert bs + [] == bs;
    match a
    case Submit(_) =>
    case Fire(id) => assert Waiting(Step(s, a), k) == Waiting(s, k);
    case Run(i) => RunSameParts(s, i, bs, k);
    case Stop(order) => if !s.stopped { StopSameParts(s, order, bs, k); }
  }

  lemma {:induction false} StepParts(s: State, a: Action, bs: seq<Emit>, k: Key)
    requires Inv(s) && Enabled(s, a) && Parted(s, bs, k)
    ensures Parted(Step(s, a), bs + SetsApart(s, a), k)
  {
    if a.Submit? && a.event.Some? && !Buffers(s, a.event.value) {
      StraightParts(s, a.event.value, bs, k);
    } else if a.Submit? && a.event.Some? {
      assert bs + [] == bs;
      BufferParts(s, a.event.value, bs, k);
    } else {
      OthersSameParts(s, a, bs, k);
      SameParts(s, bs, Step(s, a), bs + SetsApart(s, a), k);
    }
  }

  // ------------------------------------------------------------------ whole runs

  /** Everything that the first n steps set apart. */
  function Decided(ss: seq<State>, acts: seq<Action>, n: nat): seq<Emit>
    requires n <= |acts| && n < |ss|
  {
    if n == 0 then [] else Decided(ss, acts, n - 1) + SetsApart(ss[n - 1], acts[n - 1])
  }

  /** In every reachable state of every interleaving, what has been set apart are runs of the submissions of each key, and
      adds up, in every way, to what has been emitted or is on its way. */
  lemma {:induction false} AlwaysParted(ss: seq<State>, acts: seq<Action>, n: nat, k: Key, f: Weight)
    requires Execution(ss, acts) && n < |ss|
    ensures Parted(ss[n], Decided(ss, acts, n), k) && Out(ss[n], f) == Sum(Decided(ss, acts, n), f)
  {
    if n == 0 {
    } else {
      var s, a, bs := ss[n - 1], acts[n - 1], Decided(ss, acts, n - 1);
      AlwaysParted(ss, acts, n - 1, k, f);
      AlwaysInv(ss, acts, n - 1);
      assert ss[n - 1 + 1] == Step(s, a);
      StepParts(s, a, bs, k);
      StepApart(s, a, f);
      SumConcat(bs, SetsApart(s, a), f);
    }
  }
}
