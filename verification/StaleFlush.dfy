/** When a timer closes a window early. flush finds its entry by key alone, so a timer that has fired can close a window
    that a submission extended meanwhile. */
module StaleFlush {
  import opened Options
  import opened Events
  import opened InterleavedDebouncer
  import opened DebouncerSafety

  /** flush finds its entry by key alone, so a timer that has fired can close a window that was extended meanwhile:
      here the second submission resets the timer, and the old flush still takes the entry while that timer is armed. */
  lemma StaleFlushClosesEarly(e: Event, w: int) returns (ss: seq<State>, acts: seq<Action>)
    requires e.key != NoKey && w > 0
    ensures Execution(ss, acts) && |acts| == 4
    ensures acts[1] == Fire(0) && acts[2] == Submit(Some(e)) && acts[3] == Run(1)
    ensures ss[3].pending == map[e.key := 0] && ss[3].heap[0].armed
    ensures ss[4].pending == map[] && ss[4].threads[1] == Holding(0) && ss[4].heap[0].count == 1 && ss[4].heap[0].armed
  {
    var s0 := State(w, [], map[], false, [], [], []);
    var s1 := Step(s0, Submit(Some(e)));
    var s2 := Step(s1, Fire(0));
    var s3 := Step(s2, Submit(Some(e)));
    var s4 := Step(s3, Run(1));
    ss, acts := [s0, s1, s2, s3, s4], [Submit(Some(e)), Fire(0), Submit(Some(e)), Run(1)];
    assert s4.pending == map[];
  }

  // ------------------------------------------------------------------ exactly when

  /** Step n of a run is a flush that finds its key pending, with the entry's timer armed: the silence has not lasted. */
  ghost predicate ClosesEarly(ss: seq<State>, acts: seq<Action>, n: nat)
    requires n < |acts| && n < |ss|
  {
    && acts[n].Run? && acts[n].thread < |ss[n].threads| && ss[n].threads[acts[n].thread].Flushing?
    && var k := ss[n].threads[acts[n].thread].key;
       k in ss[n].pending && ss[n].pending[k] < |ss[n].heap| && ss[n].heap[ss[n].pending[k]].armed
  }

  /** A submission that opens the window of entry id, or joins it. */
  ghost predicate Joins(s: State, a: Action, id: nat) {
    && a.Submit? && a.event.Some?
    && var k := a.event.value.key;
       && k != NoKey && s.window > 0 && !s.stopped
       && if k in s.pending then s.pending[k] == id else id == |s.heap|
  }

  /** Of the submissions into entry id and the firings of its timer among the first n steps, the last is a submission. */
  ghost predicate SubmittedLast(ss: seq<State>, acts: seq<Action>, n: nat, id: nat)
    requires n <= |acts| && n < |ss|
  {
    exists j :: 0 <= j < n && Joins(ss[j], acts[j], id) && forall m :: j < m < n ==> acts[m] != Fire(id)
  }

  lemma ArmedBySubmit(s: State, e: Event, id: nat)
    requires Inv(s) && id in DoSubmit(s, e).pending.Values
    ensures Joins(s, Submit(Some(e)), id) || (id in s.pending.Values && id < |s.heap|)
    ensures Joins(s, Submit(Some(e)), id) ==> id < |DoSubmit(s, e).heap| && DoSubmit(s, e).heap[id].armed
    ensures !Joins(s, Submit(Some(e)), id) ==> id < |DoSubmit(s, e).heap| && DoSubmit(s, e).heap[id] == s.heap[id]
  {
    var s' := DoSubmit(s, e);
    var k :| k in s'.pending && s'.pending[k] == id;
    assert k in s.pending && s.pending[k] == id ==> id in s.pending.Values;
  }

  lemma ArmedByOthers(s: State, a: Action, id: nat)
    requires Inv(s) && Enabled(s, a) && !a.Submit? && id in Step(s, a).pending.Values
    ensures id in s.pending.Values && id < |s.heap| && id < |Step(s, a).heap|
    ensures Step(s, a).heap[id].armed <==> a != Fire(id) && s.heap[id].armed
  {
    var s' := Step(s, a);
    var k :| k in s'.pending && s'.pending[k] == id;
    assert k in s.pending && s.pending[k] == id;
  }

  /** A step arms the timer of a pending entry if it is a submission into it, disarms it if it is its firing, and leaves it
      alone otherwise. */
  lemma ArmedNext(s: State, a: Action, id: nat)
    requires Inv(s) && Enabled(s, a) && id in Step(s, a).pending.Values
    ensures id < |Step(s, a).heap|
    ensures Joins(s, a, id) || (id in s.pending.Values && id < |s.heap|)
    ensures Step(s, a).heap[id].armed <==> Joins(s, a, id) || (a != Fire(id) && id < |s.heap| && s.heap[id].armed)
  {
    if a.Submit? {
      if a.event.Some? {
        ArmedBySubmit(s, a.event.value, id);
      } else {
        var k :| k in s.pending && s.pending[k] == id;
      }
    } else {
      ArmedByOthers(s, a, id);
    }
  }

  lemma {:induction false} SubmittedLastNext(ss: seq<State>, acts: seq<Action>, n: nat, id: nat)
    requires n < |acts| && n + 1 < |ss|
    ensures SubmittedLast(ss, acts, n + 1, id) <==>
            Joins(ss[n], acts[n], id) || (acts[n] != Fire(id) && SubmittedLast(ss, acts, n, id))
  {
    if SubmittedLast(ss, acts, n + 1, id) {
      var j :| 0 <= j < n + 1 && Joins(ss[j], acts[j], id) && forall m :: j < m < n + 1 ==> acts[m] != Fire(id);
      assert j < n ==> SubmittedLast(ss, acts, n, id);
    }
    if acts[n] != Fire(id) && SubmittedLast(ss, acts, n, id) {
      var j :| 0 <= j < n && Joins(ss[j], acts[j], id) && forall m :: j < m < n ==> acts[m] != Fire(id);
      assert forall m :: j < m < n + 1 ==> acts[m] != Fire(id);
    }
  }

  /** A pending entry's timer is armed if and only if a submission into it came after its last firing. */
  lemma {:induction false} ArmedIffSubmittedLast(ss: seq<State>, acts: seq<Action>, n: nat, id: nat)
    requires Execution(ss, acts) && n < |ss| && id in ss[n].pending.Values
    ensures id < |ss[n].heap| && (ss[n].heap[id].armed <==> SubmittedLast(ss, acts, n, id))
  {
    if n == 0 {
    } else {
      AlwaysConserved(ss, acts, n - 1);
      assert ss[n - 1 + 1] == Step(ss[n - 1], acts[n - 1]);
      ArmedNext(ss[n - 1], acts[n - 1], id);
      SubmittedLastNext(ss, acts, n - 1, id);
      if !Joins(ss[n - 1], acts[n - 1], id) {
        ArmedIffSubmittedLast(ss, acts, n - 1, id);
      }
    }
  }

  /** A flush that finds its key pending closes the window early if and only if a submission into the entry it finds came
      after the last firing of that entry's timer. */
  lemma ClosesEarlyIff(ss: seq<State>, acts: seq<Action>, n: nat, i: nat, k: Key)
    requires Execution(ss, acts) && n < |acts| && acts[n] == Run(i) && i < |ss[n].threads|
    requires ss[n].threads[i].Flushing? && ss[n].threads[i].key == k && k in ss[n].pending
    ensures ClosesEarly(ss, acts, n) <==> SubmittedLast(ss, acts, n, ss[n].pending[k])
  {
    assert ss[n].pending[k] in ss[n].pending.Values;
    ArmedIffSubmittedLast(ss, acts, n, ss[n].pending[k]);
  }

  // ------------------------------------------------------------------ a schedule without early closings

  /** Nothing is submitted for a key between a firing of its timer, at f, and the flush that this starts, at r. */
  ghost predicate Prompt(ss: seq<State>, acts: seq<Action>)
    requires |ss| == |acts| + 1
  {
    forall f, j, r :: 0 <= f < j < r < |acts| && acts[f].Fire? && acts[f].entry < |ss[f].heap|
                      && acts[r] == Run(|ss[f].threads|) && |ss[f].threads| < |ss[r].threads|
                      && ss[r].threads[|ss[f].threads|].Flushing? && acts[j].Submit? && acts[j].event.Some? ==>
                        acts[j].event.value.key != ss[f].heap[acts[f].entry].key
  }

  /** Where a flush comes from. */
  lemma {:induction false} FlushOrigin(ss: seq<State>, acts: seq<Action>, n: nat, t: nat) returns (f: nat)
    requires Execution(ss, acts) && n < |ss| && t < |ss[n].threads| && ss[n].threads[t].Flushing?
    ensures f < n && acts[f] == Fire(ss[n].threads[t].origin) && |ss[f].threads| == t
    ensures acts[f].entry < |ss[f].heap| && ss[f].heap[acts[f].entry].key == ss[n].threads[t].key
    ensures ss[f].heap[acts[f].entry].armed
  {
    assert n > 0;
    assert ss[n - 1 + 1] == Step(ss[n - 1], acts[n - 1]);
    if t < |ss[n - 1].threads| {
      assert ss[n - 1].threads[t] == ss[n].threads[t];
      f := FlushOrigin(ss, acts, n - 1, t);
    } else {
      f := n - 1;
    }
  }

  lemma {:induction false} KeysStay(ss: seq<State>, acts: seq<Action>, m: nat, n: nat, id: nat)
    requires Execution(ss, acts) && m <= n < |ss| && id < |ss[m].heap|
    ensures id < |ss[n].heap| && ss[n].heap[id].key == ss[m].heap[id].key
    decreases n - m
  {
    if m == n {
    } else {
      assert ss[m + 1] == Step(ss[m], acts[m]);
      KeysStay(ss, acts, m + 1, n, id);
    }
  }

  ghost predicate ArmedIsPending(s: State) {
    forall id :: 0 <= id < |s.heap| && s.heap[id].armed ==> id in s.pending.Values
  }

  lemma ArmedIsPendingNext(s: State, a: Action)
    requires Inv(s) && Enabled(s, a) && ArmedIsPending(s)
    requires a.Run? && s.threads[a.thread].Flushing? && s.threads[a.thread].key in s.pending ==>
               !s.heap[s.pending[s.threads[a.thread].key]].armed
    ensures ArmedIsPending(Step(s, a))
  {
    var s' := Step(s, a);
    forall id | 0 <= id < |s'.heap| && s'.heap[id].armed ensures id in s'.pending.Values {
      if id < |s.heap| && s.heap[id].armed {
        var k :| k in s.pending && s.pending[k] == id;
        assert s.heap[id].key == k;
        assert k in s'.pending ==> s'.pending[k] == id;
      } else {
        var k := a.event.value.key;
        assert s'.pending[k] == id;
      }
    }
  }

  lemma JoinedKey(ss: seq<State>, acts: seq<Action>, j: nat, n: nat, id: nat, k: Key)
    requires Execution(ss, acts) && j < n < |ss| && Joins(ss[j], acts[j], id) && k in ss[n].pending && ss[n].pending[k] == id
    ensures acts[j].event.value.key == k && id < |ss[j + 1].heap| && ss[j + 1].heap[id].key == k
  {
    AlwaysConserved(ss, acts, j);
    AlwaysConserved(ss, acts, n);
    assert ss[j + 1] == Step(ss[j], acts[j]);
    KeysStay(ss, acts, j + 1, n, id);
  }

  /** Between joining at j and being found at n, the entry is pending under its key. */
  lemma StillPending(ss: seq<State>, acts: seq<Action>, j: nat, f: nat, n: nat, id: nat, k: Key)
    requires Execution(ss, acts) && j < f < n < |ss| && id < |ss[j + 1].heap| && ss[j + 1].heap[id].key == k
    requires id in ss[n].pending.Values
    ensures k in ss[f].pending && ss[f].pending[k] == id
  {
    KeysStay(ss, acts, j + 1, f, id);
    if id !in ss[f].pending.Values {
      FrozenForever(ss, acts, f, n, id);
    }
    AlwaysConserved(ss, acts, f);
    var l :| l in ss[f].pending && ss[f].pending[l] == id;
  }

  /** At a prompt flush of a run without early closings before, the timer is not armed. */
  lemma PromptFlush(ss: seq<State>, acts: seq<Action>, n: nat)
    requires Execution(ss, acts) && Prompt(ss, acts) && n < |acts|
    requires forall i :: 0 <= i <= n ==> ArmedIsPending(ss[i])
    ensures !ClosesEarly(ss, acts, n)
  {
    if ClosesEarly(ss, acts, n) {
      var t := acts[n].thread;
      var k := ss[n].threads[t].key;
      var id := ss[n].pending[k];
      var f := FlushOrigin(ss, acts, n, t);
      ClosesEarlyIff(ss, acts, n, t, k);
      var j :| 0 <= j < n && Joins(ss[j], acts[j], id) && forall m :: j < m < n ==> acts[m] != Fire(id);
      JoinedKey(ss, acts, j, n, id, k);
      if j < f {
        StillPending(ss, acts, j, f, n, id, k);
        assert acts[f].entry in ss[f].pending.Values;
        AlwaysConserved(ss, acts, f);
      }
      assert false;
    }
  }

  /** If nothing is submitted for a key between a firing of its timer and the flush that this starts, no window is ever
      closed early. */
  lemma {:induction false} PromptRunsCloseNoneEarly(ss: seq<State>, acts: seq<Action>, n: nat)
    requires Execution(ss, acts) && Prompt(ss, acts) && n <= |acts|
    ensures forall i :: 0 <= i <= n ==> ArmedIsPending(ss[i])
    ensures forall i :: 0 <= i < n ==> !ClosesEarly(ss, acts, i)
  {
    if n == 0 {
    } else {
      PromptRunsCloseNoneEarly(ss, acts, n - 1);
      PromptFlush(ss, acts, n - 1);
      AlwaysConserved(ss, acts, n - 1);
      assert ss[n - 1 + 1] == Step(ss[n - 1], acts[n - 1]);
      ArmedIsPendingNext(ss[n - 1], acts[n - 1]);
    }
  }
}
