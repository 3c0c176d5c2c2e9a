/** Whole lives of a debouncer under a clock: what it emits is, key by key, the offline reading of what was submitted. */
module BurstSemantics {
  import opened Options
  import opened Events
  import opened Bursts
  import opened TimedDebouncer

  /** A call of Submit and the instant at which it is made. */
  datatype Submission = Submission(event: Option<Event>, at: int)

  ghost predicate InOrder(subs: seq<Submission>, start: int, end: int) {
    && start <= end
    && (forall i :: 0 <= i < |subs| ==> start <= subs[i].at <= end)
    && (forall i, j :: 0 <= i <= j < |subs| ==> subs[i].at <= subs[j].at)
  }

  /** The history of one key. */
  function Only(subs: seq<Submission>, k: Key): seq<Stamp> {
    if subs == [] then []
    else
      var x := Last(subs);
      Only(Front(subs), k) + (if x.event.Some? && x.event.value.key == k then [Stamp(x.event.value, x.at)] else [])
  }

  lemma {:induction false} OnlyOrdered(subs: seq<Submission>, k: Key, start: int, end: int)
    requires InOrder(subs, start, end)
    ensures Ordered(Only(subs, k)) && forall i :: 0 <= i < |Only(subs, k)| ==> start <= Only(subs, k)[i].at <= end
  {
    if subs == [] {
    } else {
      OnlyOrdered(Front(subs), k, start, Last(subs).at);
    }
  }

  /** Every event emitted on its own, at once: what happens to events that are not debounced. */
  function Straight(h: seq<Stamp>): seq<Emission> {
    if h == [] then [] else Straight(Front(h)) + [Emission(Last(h).event, 1, Last(h).at)]
  }

  /** One key of a debouncer that has seen history h and whose clock is at t. */
  function KeyAt(h: seq<Stamp>, k: Key, w: int, t: int): (KeyState, seq<Emission>) {
    if k == NoKey || w <= 0 then (Idle, Straight(h))
    else (Fire(Online(h, w).0, t), OnlineTrace(h, w, t))
  }

  lemma {:induction false} FireTwice(ks: KeyState, a: int, b: int)
    requires a <= b
    ensures Fire(Fire(ks, a), b) == Fire(ks, b)
    ensures FireOut(ks, a) + FireOut(Fire(ks, a), b) == FireOut(ks, b)
  {
  }

  lemma {:induction false} KeyAdvances(h: seq<Stamp>, k: Key, w: int, a: int, b: int)
    requires a <= b
    ensures KeyAt(h, k, w, b).0 == Fire(KeyAt(h, k, w, a).0, b)
    ensures KeyAt(h, k, w, b).1 == KeyAt(h, k, w, a).1 + FireOut(KeyAt(h, k, w, a).0, b)
  {
    if k != NoKey && w > 0 {
      var ks, tr := Online(h, w).0, Online(h, w).1;
      FireTwice(ks, a, b);
      assert tr + (FireOut(ks, a) + FireOut(Fire(ks, a), b)) == (tr + FireOut(ks, a)) + FireOut(Fire(ks, a), b);
    }
  }

  lemma {:induction false} KeySubmits(h: seq<Stamp>, e: Event, w: int, t: int)
    ensures KeyAt(h + [Stamp(e, t)], e.key, w, t) ==
            if Debounced(e, w, false)
            then (Hit(KeyAt(h, e.key, w, t).0, e, t, w), KeyAt(h, e.key, w, t).1 + HitOut(KeyAt(h, e.key, w, t).0, e, t))
            else (Idle, KeyAt(h, e.key, w, t).1 + [Emission(e, 1, t)])
  {
    var g := h + [Stamp(e, t)];
    assert Front(g) == h && Last(g) == Stamp(e, t);
    if Debounced(e, w, false) {
      var (ks, tr) := Online(h, w);
      assert Online(g, w) == (Hit(Fire(ks, t), e, t, w), tr + FireOut(ks, t) + HitOut(Fire(ks, t), e, t));
      assert !Due(Online(g, w).0, t);
      assert OnlineTrace(g, w, t) == Online(g, w).1;
    }
  }

  /** The debouncer's windows and log are, key by key, what the history says. */
  ghost predicate Agrees(v: Windows, log: seq<Emission>, subs: seq<Submission>, w: int, t: int) {
    && WellKeyed(v)
    && forall k :: At(v, k) == KeyAt(Only(subs, k), k, w, t).0 && Trace(log, k) == KeyAt(Only(subs, k), k, w, t).1
  }

  lemma {:induction false} AdvanceAgrees(
    was: Windows, v: Windows, order: seq<Key>, log: seq<Emission>, subs: seq<Submission>, w: int, a: int, b: int)
    requires a <= b && Agrees(was, log, subs, w, a)
    requires Closing(was, v, order, b) && forall k :: k in v ==> !Due(v[k], b)
    ensures Agrees(v, Closed(log, was, order, None), subs, w, b)
  {
    forall k
      ensures At(v, k) == KeyAt(Only(subs, k), k, w, b).0
      ensures Trace(Closed(log, was, order, None), k) == KeyAt(Only(subs, k), k, w, b).1
    {
      KeyAdvances(Only(subs, k), k, w, a, b);
      TraceClosed(log, was, order, None, k);
    }
  }

  lemma {:induction false} SubmitAgrees(v: Windows, log: seq<Emission>, subs: seq<Submission>, w: int, x: Submission)
    requires Agrees(v, log, subs, w, x.at)
    ensures var (v', out) := Submitted(v, x.event, x.at, w, false); Agrees(v', log + out, subs + [x], w, x.at)
  {
    var (v', out) := Submitted(v, x.event, x.at, w, false);
    assert Front(subs + [x]) == subs;
    forall k
      ensures At(v', k) == KeyAt(Only(subs + [x], k), k, w, x.at).0
      ensures Trace(log + out, k) == KeyAt(Only(subs + [x], k), k, w, x.at).1
    {
      assert x.event.None? || x.event.value.key != k ==> Only(subs + [x], k) == Only(subs, k);
      if out == [] {
        assert log + out == log;
      } else {
        TraceOne(log, out[0], k);
      }
      if x.event.Some? && x.event.value.key == k {
        KeySubmits(Only(subs, k), x.event.value, w, x.at);
      }
    }
  }

  /** Burst semantics: for every key, whatever the other keys do, the log holds what that key's own bursts emit. */
  lemma {:induction false} LogIsBursts(
    v: Windows, log: seq<Emission>, subs: seq<Submission>, w: int, t: int, k: Key, bs: seq<seq<Stamp>>)
    requires w > 0 && k != NoKey && Agrees(v, log, subs, w, t) && IsCut(bs, Only(subs, k), w)
    ensures Trace(log, k) == EmitsUntil(bs, w, t)
  {
    OnlineIsOffline(Only(subs, k), bs, w, t);
  }

  /** Rate bound: an interval of m windows holds at most 2m emissions for one key, however many events it had. */
  lemma {:induction false} LogIsBounded(
    v: Windows, log: seq<Emission>, subs: seq<Submission>, w: int, start: int, t: int, k: Key, a: int, m: nat)
    requires w > 0 && k != NoKey && InOrder(subs, start, t) && Agrees(v, log, subs, w, t)
    ensures InInterval(Trace(log, k), a, a + m * w) <= 2 * m
  {
    OnlyOrdered(subs, k, start, t);
    RateBound(Only(subs, k), w, t, a, m);
  }

  /** Submits a history to a new debouncer and lets time pass to the horizon. */
  method Replay(window: int, start: int, subs: seq<Submission>, horizon: int) returns (d: Debouncer)
    requires InOrder(subs, start, horizon)
    ensures fresh(d) && fresh(d.pending.Values) && d.Valid() && d.window == window && d.now == horizon && !d.stopped
    ensures Agrees(d.view, d.emitted, subs, window, horizon)
    ensures forall k, bs :: window > 0 && k != NoKey && IsCut(bs, Only(subs, k), window) ==>
                              Trace(d.emitted, k) == EmitsUntil(bs, window, horizon)
  {
    d := new Debouncer(window, start);
    for i := 0 to |subs|
      invariant fresh(d) && fresh(d.pending.Values) && d.Valid() && d.window == window && !d.stopped
      invariant d.now == if i == 0 then start else subs[i - 1].at
      invariant Agrees(d.view, d.emitted, subs[..i], window, d.now)
    {
      ghost var was, log, before := d.view, d.emitted, d.now;
      ghost var order := d.Advance(subs[i].at);
      AdvanceAgrees(was, d.view, order, log, subs[..i], window, before, d.now);
      SubmitAgrees(d.view, d.emitted, subs[..i], window, subs[i]);
      assert subs[..i + 1] == subs[..i] + [subs[i]];
      d.Submit(subs[i].event);
    }
    assert subs[..|subs|] == subs;
    ghost var was, log, before := d.view, d.emitted, d.now;
    ghost var order := d.Advance(horizon);
    AdvanceAgrees(was, d.view, order, log, subs, window, before, horizon);
    forall k, bs | window > 0 && k != NoKey && IsCut(bs, Only(subs, k), window)
      ensures Trace(d.emitted, k) == EmitsUntil(bs, window, horizon)
    {
      LogIsBursts(d.view, d.emitted, subs, window, horizon, k, bs);
    }
  }

  // ------------------------------------------------------------------ stopping

  function Min(a: int, b: int): int {
    if a < b then a else b
  }

  /** One key's trace when the debouncer is stopped at an instant: the buffered aggregate comes out early. */
  function StoppedTrace(h: seq<Stamp>, k: Key, w: int, stop: int): seq<Emission> {
    KeyAt(h, k, w, stop).1 + Flushed(KeyAt(h, k, w, stop).0, stop)
  }

  /** Stopping loses nothing: the last burst's aggregate is emitted when its window ends or at the stop, whichever is first. */
  lemma {:induction false} StoppedIsBursts(h: seq<Stamp>, k: Key, w: int, stop: int, bs: seq<seq<Stamp>>)
    requires w > 0 && k != NoKey && IsCut(bs, h, w)
    ensures bs == [] ==> StoppedTrace(h, k, w, stop) == []
    ensures bs != [] ==>
              && Last(bs) != []
              && StoppedTrace(h, k, w, stop) ==
                 Emits(Front(bs), w) + [Leading(Last(bs))] + Trailing(Last(bs), Min(Last(Last(bs)).at + w, stop))
  {
    OnlineIsOffline(h, bs, w, stop);
    if bs != [] {
      OnlineInBurst(h, bs, w);
    }
  }

  /** The log of a debouncer that was stopped after one history and then went on getting submissions. */
  ghost predicate Outlived(log: seq<Emission>, subs: seq<Submission>, late: seq<Submission>, w: int, stop: int) {
    forall k :: Trace(log, k) == StoppedTrace(Only(subs, k), k, w, stop) + Straight(Only(late, k))
  }

  lemma {:induction false} StopAgrees(was: Windows, order: seq<Key>, log: seq<Emission>, subs: seq<Submission>, w: int, stop: int)
    requires Agrees(was, log, subs, w, stop) && forall k :: k in order <==> k in was
    requires forall i, j :: 0 <= i < j < |order| ==> order[i] != order[j]
    ensures Outlived(Closed(log, was, order, Some(stop)), subs, [], w, stop)
  {
    forall k ensures Trace(Closed(log, was, order, Some(stop)), k) == StoppedTrace(Only(subs, k), k, w, stop) {
      TraceClosed(log, was, order, Some(stop), k);
    }
  }

  lemma {:induction false} LateKey(log: seq<Emission>, late: seq<Submission>, w: int, x: Submission, k: Key)
    ensures Straight(Only(late + [x], k)) == Straight(Only(late, k)) + Trace(Submitted(map[], x.event, x.at, w, true).1, k)
    ensures Trace(log + Submitted(map[], x.event, x.at, w, true).1, k) ==
            Trace(log, k) + Trace(Submitted(map[], x.event, x.at, w, true).1, k)
  {
    var out := Submitted(map[], x.event, x.at, w, true).1;
    var h := Only(late + [x], k);
    assert Front(late + [x]) == late && Last(late + [x]) == x;
    TraceConcat(log, out, k);
    if x.event.Some? {
      TraceOne([], out[0], k);
      assert [] + [out[0]] == out;
    }
    if x.event.Some? && x.event.value.key == k {
      assert Front(h) == Only(late, k) && Last(h) == Stamp(x.event.value, x.at);
    } else {
      assert h == Only(late, k) && Trace(out, k) == [];
    }
  }

  lemma {:induction false} LateAgrees(
    log: seq<Emission>, subs: seq<Submission>, late: seq<Submission>, w: int, stop: int, x: Submission)
    requires Outlived(log, subs, late, w, stop)
    ensures Outlived(log + Submitted(map[], x.event, x.at, w, true).1, subs, late + [x], w, stop)
  {
    var out := Submitted(map[], x.event, x.at, w, true).1;
    forall k ensures Trace(log + out, k) == StoppedTrace(Only(subs, k), k, w, stop) + Straight(Only(late + [x], k)) {
      LateKey(log, late, w, x, k);
      var was, early, more := StoppedTrace(Only(subs, k), k, w, stop), Straight(Only(late, k)), Trace(out, k);
      assert (was + early) + more == was + (early + more);
    }
  }

  /** A whole life: a history, a stop, and submissions that arrive after it and go straight through. */
  method Life(window: int, start: int, subs: seq<Submission>, stop: int, late: seq<Submission>) returns (d: Debouncer)
    requires InOrder(subs, start, stop) && InOrder(late, stop, if late == [] then stop else Last(late).at)
    ensures d.Valid() && d.stopped && d.view == map[]
    ensures Outlived(d.emitted, subs, late, window, stop)
  {
    d := Replay(window, start, subs, stop);
    ghost var was, log := d.view, d.emitted;
    ghost var order := d.Stop();
    StopAgrees(was, order, log, subs, window, stop);
    for i := 0 to |late|
      invariant fresh(d) && fresh(d.pending.Values) && d.Valid() && d.stopped && d.view == map[]
      invariant d.window == window && d.now == if i == 0 then stop else late[i - 1].at
      invariant Outlived(d.emitted, subs, late[..i], window, stop)
    {
      ghost var quiet := d.Advance(late[i].at);
      assert quiet == [];
      LateAgrees(d.emitted, subs, late[..i], window, stop, late[i]);
      assert late[..i + 1] == late[..i] + [late[i]];
      d.Submit(late[i].event);
    }
    assert late[..|late|] == late;
  }
}
