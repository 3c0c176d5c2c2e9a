/** The debouncer as a mutable object under a clock: each call runs to completion, and a timer
    fires before anything else that happens at the same instant. */
module TimedDebouncer {
  import opened Options
  import opened Events
  import opened Bursts

  /** The pending state of one key; the deadline is the instant at which its timer fires. */
  class PendingKey {
    var last: Event
    var count: nat
    var deadline: int

    constructor (last: Event, deadline: int)
      ensures this.last == last && this.count == 0 && this.deadline == deadline
    {
      this.last := last;
      this.count := 0;
      this.deadline := deadline;
    }

    /** Buffers one more event and resets the timer. */
    method Buffer(event: Event, deadline: int)
      modifies this
      ensures last == event && count == old(count) + 1 && this.deadline == deadline
    {
      last := event;
      count := count + 1;
      this.deadline := deadline;
    }
  }

  /** Whether an event takes part in debouncing, or goes straight through. */
  predicate Debounced(e: Event, w: int, stopped: bool) {
    e.key != NoKey && w > 0 && !stopped
  }

  /** The open windows, as values: what the map of pending keys means. */
  type Windows = map<Key, KeyState>

  function At(v: Windows, k: Key): KeyState {
    if k in v then v[k] else Idle
  }

  ghost function ClosingTime(ks: KeyState, stop: Option<int>): int {
    if stop.Some? then stop.value else if ks.Open? then ks.deadline else 0
  }

  /** The log after closing windows one by one: each at its own deadline, or all of them at the instant of a stop. */
  ghost function Closed(log: seq<Emission>, v: Windows, order: seq<Key>, stop: Option<int>): seq<Emission> {
    if order == [] then log
    else Closed(log, v, Front(order), stop) + Flushed(At(v, Last(order)), ClosingTime(At(v, Last(order)), stop))
  }

  lemma {:induction false} ClosedOneMore(log: seq<Emission>, v: Windows, order: seq<Key>, k: Key, stop: Option<int>)
    ensures Closed(log, v, order + [k], stop) == Closed(log, v, order, stop) + Flushed(At(v, k), ClosingTime(At(v, k), stop))
  {
    assert Front(order + [k]) == order;
  }

  /** The windows listed in order, all due by instant t, have been closed; v is what is left of was. */
  ghost predicate Closing(was: Windows, v: Windows, order: seq<Key>, t: int) {
    && (forall k :: k in v ==> k in was && v[k] == was[k])
    && (forall k :: k in order <==> k in was && k !in v)
    && (forall k :: k in order ==> Due(was[k], t))
    && (forall i, j :: 0 <= i < j < |order| ==> order[i] != order[j])
  }

  lemma {:induction false} ClosingOneMore(was: Windows, v: Windows, order: seq<Key>, k: Key, t: int)
    requires Closing(was, v, order, t) && k in v && Due(v[k], t)
    ensures Closing(was, v - {k}, order + [k], t)
  {
  }

  predicate ClosesBefore(a: KeyState, b: KeyState) {
    a.Open? && b.Open? && a.deadline <= b.deadline
  }

  /** The windows listed in order close by instant now, each no later than the next. */
  ghost predicate EarliestFirst(was: Windows, order: seq<Key>, now: int) {
    && (forall i :: 0 <= i < |order| ==> Due(At(was, order[i]), now))
    && (forall i, j :: 0 <= i < j < |order| ==> ClosesBefore(At(was, order[i]), At(was, order[j])))
  }

  /** How far time has got on its way to t: the windows listed in order have been closed, the last of them by now. */
  ghost predicate Advanced(
    was: Windows, v: Windows, order: seq<Key>, log: seq<Emission>, emitted: seq<Emission>, now: int, t: int)
  {
    now <= t && Closing(was, v, order, t) && EarliestFirst(was, order, now) && emitted == Closed(log, was, order, None)
  }

  lemma {:induction false} AdvancedOneMore(
    was: Windows, v: Windows, order: seq<Key>, log: seq<Emission>, emitted: seq<Emission>, now: int, t: int, k: Key)
    requires Advanced(was, v, order, log, emitted, now, t) && k in v && Due(v[k], t) && now <= v[k].deadline
    ensures Advanced(was, v - {k}, order + [k], log, emitted + Flushed(v[k], v[k].deadline), v[k].deadline, t)
  {
    ClosingOneMore(was, v, order, k, t);
    ClosedOneMore(log, was, order, k, None);
  }

  lemma AdvancedStart(v: Windows, log: seq<Emission>, now: int, t: int)
    requires now <= t
    ensures Advanced(v, v, [], log, log, now, t)
  {
  }

  lemma AdvancedLater(
    was: Windows, v: Windows, order: seq<Key>, log: seq<Emission>, emitted: seq<Emission>, now: int, t: int)
    requires Advanced(was, v, order, log, emitted, now, t)
    ensures Advanced(was, v, order, log, emitted, t, t)
  {
  }

  ghost predicate WellKeyed(v: Windows) {
    forall k :: k in v ==> v[k].Open? && v[k].last.key == k
  }

  lemma {:induction false} TraceFlushed(log: seq<Emission>, ks: KeyState, l: Key, t: int, k: Key)
    requires ks.Open? ==> ks.last.key == l
    ensures Trace(log + Flushed(ks, t), k) == Trace(log, k) + if k == l then Flushed(ks, t) else []
  {
    if Flushed(ks, t) == [] {
      assert log + Flushed(ks, t) == log;
    } else {
      TraceOne(log, Flushed(ks, t)[0], k);
    }
  }

  lemma {:induction false} TraceOfOthers(log: seq<Emission>, v: Windows, order: seq<Key>, stop: Option<int>, k: Key)
    requires WellKeyed(v) && forall i :: 0 <= i < |order| ==> order[i] != k
    ensures Trace(Closed(log, v, order, stop), k) == Trace(log, k)
  {
    if order == [] {
    } else {
      var l := Last(order);
      TraceOfOthers(log, v, Front(order), stop, k);
      TraceFlushed(Closed(log, v, Front(order), stop), At(v, l), l, ClosingTime(At(v, l), stop), k);
    }
  }

  lemma {:induction false} TraceOfListed(log: seq<Emission>, v: Windows, order: seq<Key>, stop: Option<int>, n: nat)
    requires WellKeyed(v) && n < |order| && forall i, j :: 0 <= i < j < |order| ==> order[i] != order[j]
    ensures var k := order[n];
            Trace(Closed(log, v, order, stop), k) == Trace(log, k) + Flushed(At(v, k), ClosingTime(At(v, k), stop))
    decreases |order|
  {
    var k, l := order[n], Last(order);
    if n == |order| - 1 {
      TraceOfOthers(log, v, Front(order), stop, k);
    } else {
      TraceOfListed(log, v, Front(order), stop, n);
      assert k != l;
    }
    TraceFlushed(Closed(log, v, Front(order), stop), At(v, l), l, ClosingTime(At(v, l), stop), k);
  }

  lemma {:induction false} TraceClosed(log: seq<Emission>, v: Windows, order: seq<Key>, stop: Option<int>, k: Key)
    requires WellKeyed(v) && forall i, j :: 0 <= i < j < |order| ==> order[i] != order[j]
    ensures Trace(Closed(log, v, order, stop), k) ==
            Trace(log, k) + if k in order then Flushed(At(v, k), ClosingTime(At(v, k), stop)) else []
  {
    if n :| 0 <= n < |order| && order[n] == k {
      TraceOfListed(log, v, order, stop, n);
    } else {
      TraceOfOthers(log, v, order, stop, k);
    }
  }

  /** What submitting an event (None is the zero value) at instant t does to the open windows, and what it emits. */
  function Submitted(v: Windows, event: Option<Event>, t: int, w: int, stopped: bool): (Windows, seq<Emission>) {
    match event
    case None => (v, [])
    case Some(e) =>
      if Debounced(e, w, stopped) then (v[e.key := Hit(At(v, e.key), e, t, w)], HitOut(At(v, e.key), e, t))
      else (v, [Emission(e, 1, t)])
  }

  class Debouncer {
    const window: int
    var now: int
    var pending: map<Key, PendingKey>
    var stopped: bool
    var emitted: seq<Emission>

    ghost var view: Windows  // what pending means, kept in step with it

    ghost predicate Valid()
      reads this, pending.Values
    {
      && view.Keys == pending.Keys
      && (forall k :: k in pending ==> var p := pending[k];
            && view[k] == Open(p.last, p.count, p.deadline) && p.last.key == k != NoKey
            && now <= p.deadline && window > 0 && !stopped)
    }

    constructor (window: int, now: int)
      ensures Valid() && this.window == window && this.now == now && !stopped
      ensures view == map[] && emitted == []
    {
      this.window := window;
      this.now := now;
      this.pending, this.view := map[], map[];
      this.stopped := false;
      this.emitted := [];
    }

    method Emit(event: Event, count: nat)
      modifies this`emitted
      ensures emitted == old(emitted) + [Emission(event, count, now)]
    {
      emitted := emitted + [Emission(event, count, now)];
    }

    /** Buffers an event in the open window of its key. */
    method Extend(e: Event)
      requires Valid() && e.key in pending
      modifies this`view, pending[e.key]
      ensures Valid() && view == old(view)[e.key := Hit(old(view)[e.key], e, now, window)]
    {
      var p := pending[e.key];
      assert forall k :: k in pending && k != e.key ==> pending[k] != p;
      p.Buffer(e, now + window);
      view := view[e.key := Hit(view[e.key], e, now, window)];
    }

    method OpenWindow(e: Event)
      requires Valid() && e.key !in pending && Debounced(e, window, stopped)
      modifies this`pending, this`view
      ensures Valid() && fresh(pending.Values - old(pending.Values))
      ensures view == old(view)[e.key := Hit(Idle, e, now, window)]
    {
      var p := new PendingKey(e, now + window);
      pending, view := pending[e.key := p], view[e.key := Hit(Idle, e, now, window)];
    }

    /** Feeds an event in at the current instant; None is the zero value, which is ignored. */
    method Submit(event: Option<Event>)
      requires Valid()
      modifies this`pending, this`view, this`emitted, pending.Values
      ensures Valid() && fresh(pending.Values - old(pending.Values))
      ensures view == Submitted(old(view), event, now, window, stopped).0
      ensures emitted == old(emitted) + Submitted(old(view), event, now, window, stopped).1
    {
      if event.None? {
        return;
      }
      var e := event.value;
      if e.key == NoKey || window <= 0 {
        Emit(e, 1);
        return;
      }
      if stopped {
        Emit(e, 1);
        return;
      }
      if e.key in pending {
        Extend(e);
        return;
      }
      OpenWindow(e);
      Emit(e, 1);
    }

    /** The timer of a key has fired: emit what was buffered, if anything, and forget the key. */
    method Flush(key: Key)
      requires Valid()
      modifies this`pending, this`view, this`emitted
      ensures Valid() && pending == old(pending) - {key} && view == old(view) - {key}
      ensures emitted == old(emitted) + Flushed(At(old(view), key), now)
    {
      if key !in pending {
        return;
      }
      var p := pending[key];
      pending, view := pending - {key}, view - {key};
      if p.count == 0 {
        return;
      }
      Emit(p.last, p.count);
    }

    /** The key whose timer is the next to fire, if one fires by instant t. */
    method NextTimer(t: int) returns (next: Option<Key>)
      requires Valid()
      ensures next.None? ==> forall k :: k in view ==> !Due(view[k], t)
      ensures next.Some? ==> next.value in view && Due(view[next.value], t)
      ensures next.Some? ==> forall k :: k in pending ==> pending[next.value].deadline <= pending[k].deadline
    {
      next := None;
      var rest := pending.Keys;
      while rest != {}
        invariant rest <= pending.Keys
        invariant next.None? ==> forall k :: k in pending.Keys - rest ==> pending[k].deadline > t
        invariant next.Some? ==> next.value in pending && pending[next.value].deadline <= t
        invariant next.Some? ==> forall k :: k in pending.Keys - rest ==> pending[next.value].deadline <= pending[k].deadline
      {
        var k :| k in rest;
        if pending[k].deadline <= t && (next.None? || pending[k].deadline < pending[next.value].deadline) {
          next := Some(k);
        }
        rest := rest - {k};
      }
    }

    /** The clock reaches the deadline of the next timer, which fires. */
    method FireNext(key: Key)
      requires Valid() && key in pending
      requires forall k :: k in pending ==> pending[key].deadline <= pending[k].deadline
      modifies this`now, this`pending, this`view, this`emitted
      ensures Valid() && now == old(view)[key].deadline
      ensures pending == old(pending) - {key} && view == old(view) - {key}
      ensures emitted == old(emitted) + Flushed(old(view)[key], now)
    {
      now := pending[key].deadline;
      Flush(key);
    }

    /** Fires the next timer that is due by instant t, if there is one; order says which have fired since the windows
        were as in was. */
    method FireDue(t: int, ghost was: Windows, ghost order: seq<Key>, ghost log: seq<Emission>)
      returns (fired: bool, ghost longer: seq<Key>)
      requires Valid() && Advanced(was, view, order, log, emitted, now, t)
      modifies this`now, this`pending, this`view, this`emitted
      ensures Valid() && Advanced(was, view, longer, log, emitted, now, t)
      ensures pending.Values <= old(pending.Values) && (fired ==> pending.Keys < old(pending.Keys))
      ensures !fired ==> forall k :: k in view ==> !Due(view[k], t)
    {
      var next := NextTimer(t);
      if next.None? {
        return false, order;
      }
      AdvancedOneMore(was, view, order, log, emitted, now, t, next.value);
      FireNext(next.value);
      return true, order + [next.value];
    }

    /** Time passes up to instant t; every timer due by then fires at its own deadline, earliest first. */
    method Advance(t: int) returns (ghost order: seq<Key>)
      requires Valid() && now <= t
      modifies this`now, this`pending, this`view, this`emitted
      ensures Valid() && now == t
      ensures pending.Values <= old(pending.Values)
      ensures Advanced(old(view), view, order, old(emitted), emitted, t, t) && forall k :: k in view ==> !Due(view[k], t)
    {
      ghost var was, log := view, emitted;
      AdvancedStart(was, log, now, t);
      var fired := true;
      order := [];
      while fired
        invariant Valid() && pending.Values <= old(pending.Values)
        invariant Advanced(was, view, order, log, emitted, now, t)
        invariant !fired ==> forall k :: k in view ==> !Due(view[k], t)
        decreases pending.Keys, fired
      {
        fired, order := FireDue(t, was, order, log);
      }
      AdvancedLater(was, view, order, log, emitted, now, t);
      now := t;
    }

    /** Takes every entry out of the map, in whatever order the range meets them. */
    method Collect() returns (flushes: seq<PendingKey>, ghost order: seq<Key>)
      modifies this`pending
      ensures pending == map[] && |order| == |flushes|
      ensures forall k :: k in order <==> k in old(pending)
      ensures forall i :: 0 <= i < |order| ==> flushes[i] == old(pending)[order[i]]
      ensures forall i, j :: 0 <= i < j < |order| ==> order[i] != order[j]
    {
      flushes, order := [], [];
      while pending != map[]
        invariant |order| == |flushes|
        invariant forall k :: k in order <==> k in old(pending) && k !in pending
        invariant forall k :: k in pending ==> k in old(pending) && pending[k] == old(pending[k])
        invariant forall i :: 0 <= i < |order| ==> flushes[i] == old(pending)[order[i]]
        invariant forall i, j :: 0 <= i < j < |order| ==> order[i] != order[j]
        decreases pending.Keys
      {
        var key :| key in pending.Keys;
        flushes, order := flushes + [pending[key]], order + [key];
        pending := pending - {key};
      }
    }

    /** Emits the aggregates of the entries that Stop has taken out of the map. */
    method EmitAll(flushes: seq<PendingKey>, ghost order: seq<Key>, ghost v: Windows)
      requires |order| == |flushes|
      requires forall i :: 0 <= i < |order| ==>
                 order[i] in v && v[order[i]] == Open(flushes[i].last, flushes[i].count, flushes[i].deadline)
      modifies this`emitted
      ensures emitted == Closed(old(emitted), v, order, Some(now))
    {
      for i := 0 to |flushes|
        invariant emitted == Closed(old(emitted), v, order[..i], Some(now))
      {
        var p := flushes[i];
        ClosedOneMore(old(emitted), v, order[..i], order[i], Some(now));
        assert order[..i + 1] == order[..i] + [order[i]];
        if p.count > 0 {
          Emit(p.last, p.count);
        }
      }
      assert order[..|flushes|] == order;
    }

    /** Cancels the timers and emits what every open window had buffered; from then on nothing is debounced. */
    method Stop() returns (ghost order: seq<Key>)
      requires Valid()
      modifies this`stopped, this`pending, this`view, this`emitted
      ensures Valid() && stopped && view == map[]
      ensures forall k :: k in order <==> k in old(view)
      ensures forall i, j :: 0 <= i < j < |order| ==> order[i] != order[j]
      ensures emitted == Closed(old(emitted), old(view), order, Some(now))
    {
      order := [];
      if stopped {
        return;
      }
      stopped := true;
      var flushes;
      flushes, order := Collect();
      EmitAll(flushes, order, view);
      view := map[];
    }
  }
}
