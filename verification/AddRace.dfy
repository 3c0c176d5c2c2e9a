/** One pair of the registry when requests interleave: pulls on their own goroutine, requests of the master, a shutdown.
    Nothing that they do at the pair is one critical section. Who stops a handler first reads it, and stops it in a later
    step; who deletes it looks up the client's inner map and deletes from that; Add finds or makes the inner map, takes out
    what the pair holds there, and stores its handler; and deleting a client, or replacing the outer map, detaches its
    inner map, so that whoever looked it up before goes on with one that nothing leads to. */
module AddRace {

  /** Calls of Add are numbered, and so are the handlers they bring. Inner maps are numbered in the order in which they are
      registered, and every step says which one it works on. */
  datatype Action =
    | Find(call: nat, at: nat)
    | Take(call: nat, at: nat)    // LoadAndDelete; what it takes out is stopped
    | Store(call: nat, at: nat)
    | Read(at: nat)               // reads the handler in order to stop it: Get, the load in Stop, a range
    | StopRead(handler: nat)      // stops a handler that was read or taken out
    | Remove(at: nat)             // deletes the handler without looking at it
    | Detach                      // DeleteByClient, or the replacing of the outer map

  /** due holds the handlers that were read or taken out and are still to be stopped. */
  datatype State = State(
    epoch: nat,
    found: map<nat, nat>,
    slots: map<nat, nat>,
    taken: set<nat>,
    stored: set<nat>,
    due: set<nat>,
    stopped: set<nat>)

  /** Any step but Detach may work on an inner map that was looked up before it was detached. */
  predicate Enabled(s: State, a: Action) {
    match a
    case Find(c, e) => c !in s.found && e <= s.epoch
    case Take(c, e) => c in s.found && s.found[c] == e && c !in s.taken
    case Store(c, e) => c in s.found && s.found[c] == e && c in s.taken && c !in s.stored
    case Read(e) => e <= s.epoch
    case StopRead(h) => h in s.due
    case Remove(e) => e <= s.epoch
    case Detach => true
  }

  function Slot(s: State, e: nat): set<nat> {
    if e in s.slots then {s.slots[e]} else {}
  }

  function Step(s: State, a: Action): State
    requires Enabled(s, a)
  {
    match a
    case Find(c, e) => s.(found := s.found[c := e])
    case Take(c, e) => s.(slots := s.slots - {e}, taken := s.taken + {c}, due := s.due + Slot(s, e))
    case Store(c, e) => s.(slots := s.slots[e := c], stored := s.stored + {c})
    case Read(e) => s.(due := s.due + Slot(s, e))
    case StopRead(h) => s.(due := s.due - {h}, stopped := s.stopped + {h})
    case Remove(e) => s.(slots := s.slots - {e})
    case Detach => s.(epoch := s.epoch + 1)
  }

  /** Handlers that were brought, cannot be reached from the registry any more, and were never told to stop. */
  function Orphans(s: State): set<nat> {
    s.stored - s.stopped - Slot(s, s.epoch)
  }

  ghost predicate Execution(ss: seq<State>, acts: seq<Action>) {
    && |ss| == |acts| + 1 && ss[0] == State(0, map[], map[], {}, {}, {}, {})
    && forall i :: 0 <= i < |acts| ==> Enabled(ss[i], acts[i]) && ss[i + 1] == Step(ss[i], acts[i])
  }

  /** Every call of Add that began is over, and whatever was to be stopped has been. */
  predicate Over(s: State) {
    s.found.Keys == s.stored && s.due == {}
  }

  ghost predicate Inv(s: State) {
    && s.due + s.stopped <= s.stored <= s.taken <= s.found.Keys
    && (forall c :: c in s.found ==> s.found[c] <= s.epoch)
    && (forall e :: e in s.slots ==> s.slots[e] in s.stored && s.found[s.slots[e]] == e)
  }

  lemma StepInv(s: State, a: Action)
    requires Inv(s) && Enabled(s, a)
    ensures Inv(Step(s, a))
  {
    var s' := Step(s, a);
    assert forall e :: e in s'.slots && e in s.slots && s'.slots[e] == s.slots[e] ==> s.slots[e] in s.stored;
  }

  lemma {:induction false} AlwaysInv(ss: seq<State>, acts: seq<Action>, n: nat)
    requires Execution(ss, acts) && n < |ss|
    ensures Inv(ss[n])
  {
    if n == 0 {
    } else {
      AlwaysInv(ss, acts, n - 1);
      StepInv(ss[n - 1], acts[n - 1]);
      assert ss[n - 1 + 1] == Step(ss[n - 1], acts[n - 1]);
    }
  }

  // ------------------------------------------------------------------ what the schedule says

  /** Step a works on the handler that inner map e holds. */
  predicate Touches(a: Action, e: nat) {
    (a.Take? || a.Store? || a.Read? || a.Remove?) && a.at == e
  }

  /** Step j is the next after i that does. */
  ghost predicate Next(acts: seq<Action>, i: nat, j: nat, e: nat) {
    i < j < |acts| && Touches(acts[j], e) && forall m :: i < m < j ==> !Touches(acts[m], e)
  }

  /** How many of the first n steps detach an inner map. */
  function Deletes(acts: seq<Action>, n: nat): nat
    requires n <= |acts|
  {
    if n == 0 then 0 else Deletes(acts, n - 1) + if acts[n - 1].Detach? then 1 else 0
  }

  /** The handler stored at step i is left behind: the next step at its inner map overwrites or deletes it, or there is no
      such step and the inner map has been detached in the end. */
  ghost predicate LeftBehind(acts: seq<Action>, i: nat)
    requires i < |acts| && acts[i].Store?
  {
    var e := acts[i].at;
    || (exists j: nat :: Next(acts, i, j, e) && (acts[j].Store? || acts[j].Remove?))
    || (e < Deletes(acts, |acts|) && !exists j: nat :: Next(acts, i, j, e))
  }

  lemma {:induction false} EpochCounts(ss: seq<State>, acts: seq<Action>, n: nat)
    requires Execution(ss, acts) && n < |ss|
    ensures ss[n].epoch == Deletes(acts, n)
    decreases n
  {
    if n == 0 {
    } else {
      EpochCounts(ss, acts, n - 1);
      assert ss[n - 1 + 1] == Step(ss[n - 1], acts[n - 1]);
    }
  }

  /** The inner map still holds handler c, which nobody has read. */
  ghost predicate Waiting(s: State, c: nat, e: nat) {
    c in s.stored && c !in s.due && c !in s.stopped && e in s.slots && s.slots[e] == c
  }

  /** No inner map holds it, and nobody has read it. */
  ghost predicate Lost(s: State, c: nat) {
    c in s.stored && c !in s.due && c !in s.stopped && forall e :: e in s.slots ==> s.slots[e] != c
  }

  /** It is or will be stopped. */
  predicate Safe(s: State, c: nat) {
    c in s.due || c in s.stopped
  }

  lemma StoredWaits(s: State, c: nat, e: nat)
    requires Inv(s) && Enabled(s, Store(c, e))
    ensures Waiting(Step(s, Store(c, e)), c, e)
  {
  }

  /** What the next step does to a waiting handler. */
  lemma WaitingNext(s: State, a: Action, c: nat, e: nat)
    requires Inv(s) && Enabled(s, a) && Waiting(s, c, e)
    ensures !Touches(a, e) ==> Waiting(Step(s, a), c, e)
    ensures Touches(a, e) && (a.Read? || a.Take?) ==> Safe(Step(s, a), c)
    ensures Touches(a, e) && (a.Store? || a.Remove?) ==> Lost(Step(s, a), c)
  {
    var s' := Step(s, a);
    forall x | x in s'.slots && x != e ensures s'.slots[x] != c {
      assert x in s.slots ==> s.found[s.slots[x]] == x;
    }
  }

  lemma {:induction false} WaitingOn(ss: seq<State>, acts: seq<Action>, m: nat, n: nat, c: nat, e: nat)
    requires Execution(ss, acts) && m <= n < |ss| && Waiting(ss[m], c, e)
    requires forall k :: m <= k < n ==> !Touches(acts[k], e)
    ensures Waiting(ss[n], c, e)
    decreases n - m
  {
    if m == n {
    } else {
      AlwaysInv(ss, acts, m);
      WaitingNext(ss[m], acts[m], c, e);
      WaitingOn(ss, acts, m + 1, n, c, e);
    }
  }

  lemma LostNext(s: State, a: Action, c: nat)
    requires Inv(s) && Enabled(s, a) && Lost(s, c)
    ensures Lost(Step(s, a), c)
  {
  }

  lemma {:induction false} LostForGood(ss: seq<State>, acts: seq<Action>, m: nat, n: nat, c: nat)
    requires Execution(ss, acts) && m <= n < |ss| && Lost(ss[m], c)
    ensures Lost(ss[n], c)
    decreases n - m
  {
    if m == n {
    } else {
      AlwaysInv(ss, acts, m);
      LostNext(ss[m], acts[m], c);
      LostForGood(ss, acts, m + 1, n, c);
    }
  }

  /** No inner map holds handler c, which was brought. */
  ghost predicate Absent(s: State, c: nat) {
    c in s.stored && forall e :: e in s.slots ==> s.slots[e] != c
  }

  lemma AbsentNext(s: State, a: Action, c: nat)
    requires Inv(s) && Enabled(s, a) && Absent(s, c)
    ensures Absent(Step(s, a), c)
  {
  }

  lemma {:induction false} AbsentForGood(ss: seq<State>, acts: seq<Action>, m: nat, n: nat, c: nat)
    requires Execution(ss, acts) && m <= n < |ss| && Absent(ss[m], c)
    ensures Absent(ss[n], c)
    decreases n - m
  {
    if m == n {
    } else {
      AlwaysInv(ss, acts, m);
      AbsentNext(ss[m], acts[m], c);
      AbsentForGood(ss, acts, m + 1, n, c);
    }
  }

  /** A handler that was taken out, deleted or overwritten is never found under the pair again. */
  lemma DroppedForGood(ss: seq<State>, acts: seq<Action>, m: nat, n: nat, e: nat)
    requires Execution(ss, acts) && m < n < |ss| && Touches(acts[m], e) && !acts[m].Read? && e in ss[m].slots
    ensures Absent(ss[n], ss[m].slots[e])
  {
    AlwaysInv(ss, acts, m);
    assert Enabled(ss[m], acts[m]) && ss[m + 1] == Step(ss[m], acts[m]);
    AbsentForGood(ss, acts, m + 1, n, ss[m].slots[e]);
  }

  lemma {:induction false} SafeForGood(ss: seq<State>, acts: seq<Action>, m: nat, n: nat, c: nat)
    requires Execution(ss, acts) && m <= n < |ss| && Safe(ss[m], c)
    ensures Safe(ss[n], c)
    decreases n - m
  {
    if m == n {
    } else {
      assert ss[m + 1] == Step(ss[m], acts[m]);
      SafeForGood(ss, acts, m + 1, n, c);
    }
  }

  lemma {:induction false} FirstTouch(acts: seq<Action>, i: nat, n: nat, e: nat) returns (j: nat)
    requires i < n <= |acts| && forall m :: i < m < n ==> !Touches(acts[m], e)
    ensures j == |acts| || Next(acts, i, j, e)
    ensures j == |acts| ==> forall m :: i < m < |acts| ==> !Touches(acts[m], e)
    decreases |acts| - n
  {
    if n == |acts| || Touches(acts[n], e) {
      j := n;
    } else {
      j := FirstTouch(acts, i, n + 1, e);
    }
  }

  /** For every handler, under every interleaving: when all calls are over, it is orphaned if and only if the schedule
      leaves it behind. */
  lemma OrphanedIff(ss: seq<State>, acts: seq<Action>, i: nat)
    requires Execution(ss, acts) && Over(ss[|acts|]) && i < |acts| && acts[i].Store?
    ensures acts[i].call in Orphans(ss[|acts|]) <==> LeftBehind(acts, i)
  {
    var c, e, last := acts[i].call, acts[i].at, ss[|acts|];
    AlwaysInv(ss, acts, i);
    StoredWaits(ss[i], c, e);
    var j := FirstTouch(acts, i, i + 1, e);
    WaitingOn(ss, acts, i + 1, j, c, e);
    AlwaysInv(ss, acts, |acts|);
    if j == |acts| {
      EpochCounts(ss, acts, |acts|);
      assert last.found[c] == e;
      assert !exists k: nat :: Next(acts, i, k, e);
      if last.epoch in last.slots && last.slots[last.epoch] == c {
        assert last.found[c] == last.epoch;
      }
    } else {
      AlwaysInv(ss, acts, j);
      WaitingNext(ss[j], acts[j], c, e);
      assert forall k: nat :: Next(acts, i, k, e) ==> k == j;
      if acts[j].Read? || acts[j].Take? {
        SafeForGood(ss, acts, j + 1, |acts|, c);
      } else {
        LostForGood(ss, acts, j + 1, |acts|, c);
      }
    }
  }

  /** A handler that was brought was stored at some step. */
  lemma {:induction false} StoredAt(ss: seq<State>, acts: seq<Action>, n: nat, c: nat) returns (i: nat)
    requires Execution(ss, acts) && n < |ss| && c in ss[n].stored
    ensures i < n && acts[i].Store? && acts[i].call == c
    decreases n
  {
    assert n > 0;
    assert ss[n - 1 + 1] == Step(ss[n - 1], acts[n - 1]);
    if c in ss[n - 1].stored {
      i := StoredAt(ss, acts, n - 1, c);
    } else {
      i := n - 1;
    }
  }

  /** So no handler is orphaned if and only if none is left behind. */
  lemma NoOrphansIff(ss: seq<State>, acts: seq<Action>)
    requires Execution(ss, acts) && Over(ss[|acts|])
    ensures Orphans(ss[|acts|]) == {} <==> forall i :: 0 <= i < |acts| && acts[i].Store? ==> !LeftBehind(acts, i)
  {
    if c :| c in Orphans(ss[|acts|]) {
      var i := StoredAt(ss, acts, |acts|, c);
      OrphanedIff(ss, acts, i);
    }
    if i :| 0 <= i < |acts| && acts[i].Store? && LeftBehind(acts, i) {
      OrphanedIff(ss, acts, i);
    }
  }

  // ------------------------------------------------------------------ requests that act on what they look up at once

  /** No inner map is detached between a request's looking it up and reading or deleting from it. */
  ghost predicate AtOnce(acts: seq<Action>) {
    forall j {:trigger acts[j].at} ::
      0 <= j < |acts| && (acts[j].Find? || acts[j].Read? || acts[j].Remove?) ==> acts[j].at == Deletes(acts, j)
  }

  ghost predicate Span(acts: seq<Action>, f: nat, q: nat, k: nat) {
    && f < q < k < |acts|
    && acts[f].Find? && acts[q].Detach? && acts[k].Store? && acts[k].call == acts[f].call
  }

  /** An inner map is detached in the middle of a call of Add. */
  ghost predicate DetachedInside(acts: seq<Action>) {
    exists f: nat, q: nat, k: nat :: Span(acts, f, q, k)
  }

  predicate Guards(a: Action) {
    a.Read? || a.Take?
  }

  predicate Drops(a: Action) {
    a.Remove? || a.Store? || a.Detach?
  }

  /** From a store at i nobody reads or takes out the handler before the pair is overwritten, deleted or detached at j. */
  ghost predicate Gap(acts: seq<Action>, i: nat, j: nat) {
    i < j < |acts| && acts[i].Store? && Drops(acts[j]) && forall m :: i < m < j ==> !Guards(acts[m])
  }

  ghost predicate Unguarded(acts: seq<Action>) {
    exists i: nat, j: nat :: Gap(acts, i, j)
  }

  lemma {:induction false} DeletesGrow(acts: seq<Action>, m: nat, n: nat)
    requires m <= n <= |acts|
    ensures Deletes(acts, m) <= Deletes(acts, n)
    ensures Deletes(acts, m) == Deletes(acts, n) <==> forall k :: m <= k < n ==> !acts[k].Detach?
    decreases n
  {
    if m == n {
    } else {
      DeletesGrow(acts, m, n - 1);
    }
  }

  /** Which steps a call that has taken or stored went through. */
  lemma {:induction false} CallSteps(ss: seq<State>, acts: seq<Action>, n: nat, c: nat) returns (f: nat, t: nat)
    requires Execution(ss, acts) && n < |ss| && c in ss[n].found
    ensures f < n && acts[f] == Find(c, ss[n].found[c])
    ensures c in ss[n].taken ==> f < t < n && acts[t] == Take(c, ss[n].found[c])
    decreases n
  {
    assert n > 0;
    assert ss[n - 1 + 1] == Step(ss[n - 1], acts[n - 1]);
    if c in ss[n - 1].found {
      f, t := CallSteps(ss, acts, n - 1, c);
      if c !in ss[n - 1].taken {
        t := n - 1;
      }
    } else {
      AlwaysInv(ss, acts, n - 1);
      f, t := n - 1, n;
    }
  }

  /** A call that has begun stores later, once all calls are over. */
  lemma {:induction false} StoresLater(ss: seq<State>, acts: seq<Action>, n: nat, c: nat) returns (k: nat)
    requires Execution(ss, acts) && Over(ss[|acts|]) && n < |ss| && c in ss[n].found && c !in ss[n].stored
    ensures n <= k < |acts| && acts[k] == Store(c, ss[n].found[c])
    decreases |acts| - n
  {
    assert n < |acts|;
    assert ss[n + 1] == Step(ss[n], acts[n]);
    if c in ss[n + 1].stored {
      k := n;
    } else {
      k := StoresLater(ss, acts, n + 1, c);
    }
  }

  lemma InsideCall(acts: seq<Action>, f: nat, j: nat, k: nat)
    requires !DetachedInside(acts) && f < j <= k < |acts|
    requires acts[f].Find? && acts[k].Store? && acts[k].call == acts[f].call
    ensures Deletes(acts, j) == Deletes(acts, f)
  {
    forall q: nat | f <= q < j ensures !acts[q].Detach? {
      assert !Span(acts, f, q, k);
    }
    DeletesGrow(acts, f, j);
  }

  /** Calls in the middle of which nothing is detached work on the registered inner map. */
  lemma CallsArePresent(ss: seq<State>, acts: seq<Action>, j: nat)
    requires Execution(ss, acts) && Over(ss[|acts|]) && AtOnce(acts) && !DetachedInside(acts)
    requires j < |acts| && (acts[j].Take? || acts[j].Store?)
    ensures acts[j].at == Deletes(acts, j)
  {
    var c := acts[j].call;
    AlwaysInv(ss, acts, j);
    assert Enabled(ss[j], acts[j]);
    var f, _ := CallSteps(ss, acts, j, c);
    var k := StoresLater(ss, acts, j, c);
    InsideCall(acts, f, j, k);
  }

  /** The first step after i that reads, takes out, overwrites, deletes or detaches. */
  lemma {:induction false} FirstBusy(acts: seq<Action>, i: nat, n: nat, j: nat) returns (b: nat)
    requires i < n <= j < |acts| && (Guards(acts[j]) || Drops(acts[j]))
    requires forall m :: i < m < n ==> !Guards(acts[m]) && !Drops(acts[m])
    ensures n <= b <= j && (Guards(acts[b]) || Drops(acts[b]))
    ensures forall m :: i < m < b ==> !Guards(acts[m]) && !Drops(acts[m])
    decreases j - n
  {
    if Guards(acts[n]) || Drops(acts[n]) {
      b := n;
    } else {
      b := FirstBusy(acts, i, n + 1, j);
    }
  }

  lemma LeftBehindIsBusy(acts: seq<Action>, i: nat) returns (j: nat)
    requires i < |acts| && acts[i].Store? && LeftBehind(acts, i) && acts[i].at == Deletes(acts, i)
    ensures i < j < |acts| && (Guards(acts[j]) || Drops(acts[j]))
  {
    if k: nat :| Next(acts, i, k, acts[i].at) && (acts[k].Store? || acts[k].Remove?) {
      j := k;
    } else {
      DeletesGrow(acts, i, |acts|);
      j :| i <= j < |acts| && acts[j].Detach?;
    }
  }

  lemma GuardedIsSafe(acts: seq<Action>, i: nat, b: nat)
    requires i < |acts| && acts[i].Store? && Next(acts, i, b, acts[i].at) && Guards(acts[b])
    ensures !LeftBehind(acts, i)
  {
    assert forall k: nat :: Next(acts, i, k, acts[i].at) ==> k == b;
  }

  lemma LeftBehindShows(ss: seq<State>, acts: seq<Action>, i: nat)
    requires Execution(ss, acts) && Over(ss[|acts|]) && AtOnce(acts)
    requires i < |acts| && acts[i].Store? && LeftBehind(acts, i)
    ensures DetachedInside(acts) || Unguarded(acts)
  {
    if !DetachedInside(acts) {
      var e := acts[i].at;
      CallsArePresent(ss, acts, i);
      var j := LeftBehindIsBusy(acts, i);
      var b := FirstBusy(acts, i, i + 1, j);
      DeletesGrow(acts, i, b);
      if Guards(acts[b]) {
        if acts[b].Take? {
          CallsArePresent(ss, acts, b);
        }
        GuardedIsSafe(acts, i, b);
      } else {
        assert Gap(acts, i, b);
      }
    }
  }

  /** After an inner map has been detached, requests that act at once do not touch it, unless a call is in the middle. */
  lemma DetachedIsLeftAlone(ss: seq<State>, acts: seq<Action>, b: nat, k: nat, e: nat)
    requires Execution(ss, acts) && Over(ss[|acts|]) && AtOnce(acts) && !DetachedInside(acts)
    requires b < k < |acts| && acts[b].Detach? && e == Deletes(acts, b)
    ensures !Touches(acts[k], e)
  {
    DeletesGrow(acts, b + 1, k);
    if acts[k].Take? || acts[k].Store? {
      CallsArePresent(ss, acts, k);
    }
  }

  lemma {:induction false} NeverTouchedAfter(ss: seq<State>, acts: seq<Action>, i: nat, b: nat)
    requires Execution(ss, acts) && Over(ss[|acts|]) && AtOnce(acts) && !DetachedInside(acts)
    requires i < b < |acts| && acts[b].Detach?
    requires forall m: nat :: i < m < b ==> !Touches(acts[m], Deletes(acts, b))
    ensures forall k: nat :: i < k < |acts| ==> !Touches(acts[k], Deletes(acts, b))
  {
    forall k: nat | b < k < |acts| ensures !Touches(acts[k], Deletes(acts, b)) {
      DetachedIsLeftAlone(ss, acts, b, k, Deletes(acts, b));
    }
  }

  /** A handler that is not touched after its inner map was detached, nor before, is left behind. */
  lemma {:induction false} NeverTouchedAgain(acts: seq<Action>, i: nat, b: nat)
    requires i < |acts| && acts[i].Store? && b < |acts| && acts[b].Detach? && acts[i].at <= Deletes(acts, b)
    requires forall k: nat :: i < k < |acts| ==> !Touches(acts[k], acts[i].at)
    ensures LeftBehind(acts, i)
  {
    DeletesGrow(acts, b + 1, |acts|);
  }

  /** The first step after a store to overwrite, delete or detach does it to the inner map stored into. */
  lemma {:induction false} FirstDrop(ss: seq<State>, acts: seq<Action>, i: nat, j: nat) returns (b: nat)
    requires Execution(ss, acts) && Over(ss[|acts|]) && AtOnce(acts) && !DetachedInside(acts) && Gap(acts, i, j)
    ensures i < b < |acts| && Drops(acts[b]) && acts[i].at == Deletes(acts, b)
    ensures !acts[b].Detach? ==> acts[b].at == acts[i].at
    ensures forall m: nat :: i < m < b ==> !Touches(acts[m], acts[i].at)
  {
    CallsArePresent(ss, acts, i);
    b := FirstBusy(acts, i, i + 1, j);
    DeletesGrow(acts, i, b);
    if acts[b].Store? {
      CallsArePresent(ss, acts, b);
    }
  }

  lemma {:induction false} GapLeavesBehind(ss: seq<State>, acts: seq<Action>, i: nat, j: nat)
    requires Execution(ss, acts) && Over(ss[|acts|]) && AtOnce(acts) && !DetachedInside(acts) && Gap(acts, i, j)
    ensures LeftBehind(acts, i)
  {
    var b := FirstDrop(ss, acts, i, j);
    if acts[b].Detach? {
      NeverTouchedAfter(ss, acts, i, b);
      NeverTouchedAgain(acts, i, b);
    } else {
      assert Next(acts, i, b, acts[i].at);
    }
  }

  /** The last store into an inner map. */
  lemma {:induction false} LastStore(acts: seq<Action>, e: nat, k: nat, n: nat) returns (l: nat)
    requires k < n <= |acts| && acts[k].Store? && acts[k].at == e
    requires forall m :: n <= m < |acts| ==> !(acts[m].Store? && acts[m].at == e)
    ensures k <= l < |acts| && acts[l].Store? && acts[l].at == e
    ensures forall m :: l < m < |acts| ==> !(acts[m].Store? && acts[m].at == e)
    decreases n
  {
    if acts[n - 1].Store? && acts[n - 1].at == e {
      l := n - 1;
    } else {
      l := LastStore(acts, e, k, n - 1);
    }
  }

  /** Calls do not forget how far they are. */
  lemma {:induction false} CallsStay(ss: seq<State>, acts: seq<Action>, m: nat, n: nat)
    requires Execution(ss, acts) && m <= n < |ss|
    ensures ss[m].found.Keys <= ss[n].found.Keys && ss[m].taken <= ss[n].taken && ss[m].stored <= ss[n].stored
    decreases n - m
  {
    if m == n {
    } else {
      assert ss[m + 1] == Step(ss[m], acts[m]);
      CallsStay(ss, acts, m + 1, n);
    }
  }

  lemma FindOnce(ss: seq<State>, acts: seq<Action>, f: nat, g: nat, c: nat)
    requires Execution(ss, acts) && f < g < |acts| && acts[f].Find? && acts[f].call == c && acts[g].Find?
    ensures acts[g].call != c
  {
    assert ss[f + 1] == Step(ss[f], acts[f]) && Enabled(ss[g], acts[g]);
    CallsStay(ss, acts, f + 1, g);
  }

  /** After the last store into an inner map that has been detached, nobody touches it. */
  lemma NoTouchAfterLast(ss: seq<State>, acts: seq<Action>, q: nat, l: nat, j: nat, e: nat)
    requires Execution(ss, acts) && Over(ss[|acts|]) && AtOnce(acts)
    requires q < l < j < |acts| && acts[q].Detach? && e <= Deletes(acts, q)
    requires forall m :: l < m < |acts| ==> !(acts[m].Store? && acts[m].at == e)
    ensures !Touches(acts[j], e)
  {
    DeletesGrow(acts, q + 1, j);
    if acts[j].Take? && acts[j].at == e {
      assert Enabled(ss[j], acts[j]) && ss[j + 1] == Step(ss[j], acts[j]);
      AlwaysInv(ss, acts, j);
      var k := StoresLater(ss, acts, j + 1, acts[j].call);
    }
  }

  /** A call finds its inner map once. */
  lemma FoundAt(ss: seq<State>, acts: seq<Action>, f: nat, k: nat)
    requires Execution(ss, acts) && f < k < |acts| && acts[f].Find? && acts[k].Store? && acts[k].call == acts[f].call
    ensures acts[f].at == acts[k].at
  {
    var c := acts[k].call;
    assert Enabled(ss[k], acts[k]);
    var g, _ := CallSteps(ss, acts, k, c);
    if f < g {
      FindOnce(ss, acts, f, g, c);
    } else if g < f {
      FindOnce(ss, acts, g, f, c);
    }
  }

  lemma {:induction false} SpanLeavesBehind(ss: seq<State>, acts: seq<Action>, f: nat, q: nat, k: nat) returns (l: nat)
    requires Execution(ss, acts) && Over(ss[|acts|]) && AtOnce(acts) && Span(acts, f, q, k)
    ensures l < |acts| && acts[l].Store? && LeftBehind(acts, l)
  {
    FoundAt(ss, acts, f, k);
    DeletesGrow(acts, f, q);
    l := LastStore(acts, acts[k].at, k, |acts|);
    forall j: nat | l < j < |acts| ensures !Touches(acts[j], acts[l].at) {
      NoTouchAfterLast(ss, acts, q, l, j, acts[l].at);
    }
    NeverTouchedAgain(acts, l, q);
  }

  /** Among requests that act on what they look up at once, no handler is orphaned if and only if no inner map is detached
      in the middle of an Add, and between a store and the next step that overwrites, deletes or detaches somebody reads or
      takes out what was stored. */
  lemma NoOrphansIffGuarded(ss: seq<State>, acts: seq<Action>)
    requires Execution(ss, acts) && Over(ss[|acts|]) && AtOnce(acts)
    ensures Orphans(ss[|acts|]) == {} <==> !DetachedInside(acts) && !Unguarded(acts)
  {
    NoOrphansIff(ss, acts);
    if i :| 0 <= i < |acts| && acts[i].Store? && LeftBehind(acts, i) {
      LeftBehindShows(ss, acts, i);
    }
    if f: nat, q: nat, k: nat :| Span(acts, f, q, k) {
      var l := SpanLeavesBehind(ss, acts, f, q, k);
    } else if i: nat, j: nat :| Gap(acts, i, j) {
      GapLeavesBehind(ss, acts, i, j);
    }
  }

  // ------------------------------------------------------------------ Adds and stop requests, one of the latter at a time

  /** A stop request reads at p and detaches at q, and no other reads in between. It may detach twice: DeleteAll first
      deletes each client, and then replaces the outer map. */
  ghost predicate StopRequest(acts: seq<Action>, p: nat, q: nat) {
    && p < q < |acts| && acts[p].Read? && acts[q].Detach?
    && forall m :: p < m < q ==> !acts[m].Read?
  }

  predicate Begins(acts: seq<Action>, p: nat) {
    p < |acts| && acts[p].Read?
  }

  predicate Finishes(acts: seq<Action>, q: nat) {
    q < |acts| && acts[q].Detach?
  }

  /** Stop requests come one after the other, and nothing else stops or deletes but Add. */
  ghost predicate InTurn(acts: seq<Action>) {
    && (forall i: nat :: i < |acts| ==> !acts[i].Remove?)
    && (forall p: nat :: Begins(acts, p) ==> exists q: nat :: StopRequest(acts, p, q))
    && (forall q: nat :: Finishes(acts, q) ==> exists p: nat :: StopRequest(acts, p, q))
  }

  /** One call takes while another is between its take and its store. */
  ghost predicate AddsOverlap(acts: seq<Action>) {
    exists i, j, k ::
      0 <= i < j < k < |acts| && acts[i].Take? && acts[j].Take? && acts[k].Store? && acts[k].call == acts[i].call
  }

  /** A call, from f to s, and a stop request, from p to q, overlap. */
  ghost predicate Meet(acts: seq<Action>, f: nat, s: nat, p: nat, q: nat) {
    && StopRequest(acts, p, q) && f < q && p < s && f < s < |acts|
    && acts[f].Find? && acts[s].Store? && acts[s].call == acts[f].call
  }

  ghost predicate AddMeetsStop(acts: seq<Action>) {
    exists f: nat, s: nat, p: nat, q: nat :: Meet(acts, f, s, p, q)
  }

  lemma {:induction false} SpanMeets(acts: seq<Action>, f: nat, q: nat, k: nat)
    requires InTurn(acts) && Span(acts, f, q, k)
    ensures AddMeetsStop(acts)
  {
    assert Finishes(acts, q);
    var p: nat :| StopRequest(acts, p, q);
    assert Meet(acts, f, k, p, q);
  }

  lemma {:induction false} GapOverlaps(ss: seq<State>, acts: seq<Action>, i: nat, j: nat)
    requires Execution(ss, acts) && InTurn(acts) && Gap(acts, i, j)
    ensures AddsOverlap(acts) || AddMeetsStop(acts)
  {
    assert Enabled(ss[i], acts[i]) && ss[i + 1] == Step(ss[i], acts[i]) && Enabled(ss[j], acts[j]);
    var f, t := CallSteps(ss, acts, i, acts[i].call);
    if acts[j].Store? {
      CallsStay(ss, acts, i + 1, j);
      var _, u := CallSteps(ss, acts, j, acts[j].call);
      assert !(i < u < j);
      if t < u {
        assert 0 <= t < u < i < |acts| && acts[t].Take? && acts[u].Take? && acts[i].call == acts[t].call;
      } else {
        assert 0 <= u < t < j < |acts| && acts[u].Take? && acts[t].Take? && acts[j].call == acts[u].call;
      }
    } else {
      assert Finishes(acts, j);
      var p: nat :| StopRequest(acts, p, j);
      assert Meet(acts, f, i, p, j);
    }
  }

  /** A call that stores between the two steps of a stop request: if it is guarded, it is by a call that stores later. */
  lemma {:induction false} StoreInsideStop(ss: seq<State>, acts: seq<Action>, s: nat, p: nat, q: nat)
    requires Execution(ss, acts) && Over(ss[|acts|]) && StopRequest(acts, p, q) && p < s < q && acts[s].Store?
    ensures DetachedInside(acts) || Unguarded(acts)
    decreases q - s
  {
    if !Gap(acts, s, q) {
      var m :| s < m < q && Guards(acts[m]);
      var c := acts[m].call;
      assert Enabled(ss[m], acts[m]) && ss[m + 1] == Step(ss[m], acts[m]);
      AlwaysInv(ss, acts, m);
      var f, _ := CallSteps(ss, acts, m, c);
      var k := StoresLater(ss, acts, m + 1, c);
      if k < q {
        StoreInsideStop(ss, acts, k, p, q);
      } else {
        assert Span(acts, f, q, k);
      }
    }
  }

  lemma {:induction false} MeetShows(ss: seq<State>, acts: seq<Action>, f: nat, s: nat, p: nat, q: nat)
    requires Execution(ss, acts) && Over(ss[|acts|]) && Meet(acts, f, s, p, q)
    ensures DetachedInside(acts) || Unguarded(acts)
  {
    if q < s {
      assert Span(acts, f, q, s);
    } else {
      StoreInsideStop(ss, acts, s, p, q);
    }
  }

  /** A call between its take and its store. */
  predicate Between(s: State, c: nat) {
    c in s.taken && c !in s.stored
  }

  lemma {:induction false} ReadInsideAdd(ss: seq<State>, acts: seq<Action>, p: nat, d: nat)
    requires Execution(ss, acts) && Over(ss[|acts|]) && InTurn(acts) && p < |acts| && acts[p].Read? && Between(ss[p], d)
    ensures AddMeetsStop(acts)
  {
    AlwaysInv(ss, acts, p);
    var f, _ := CallSteps(ss, acts, p, d);
    var k := StoresLater(ss, acts, p, d);
    assert Begins(acts, p);
    var q: nat :| StopRequest(acts, p, q);
    assert Meet(acts, f, k, p, q);
  }

  lemma {:induction false} BetweenUntil(ss: seq<State>, acts: seq<Action>, m: nat, n: nat, k: nat, d: nat)
    requires Execution(ss, acts) && m <= n <= k < |acts| && Between(ss[m], d) && acts[k].Store? && acts[k].call == d
    ensures Between(ss[n], d)
  {
    assert Enabled(ss[k], acts[k]);
    CallsStay(ss, acts, m, n);
    CallsStay(ss, acts, n, k);
  }

  /** One of two calls stores first, while the other is still open; so what guards its handler is the take of a third, and
      so on: two calls stay open. */
  lemma {:induction false} TwoOpen(ss: seq<State>, acts: seq<Action>, n: nat, c: nat, d: nat)
    requires Execution(ss, acts) && Over(ss[|acts|]) && InTurn(acts)
    requires n < |ss| && c != d && Between(ss[n], c) && Between(ss[n], d)
    ensures AddMeetsStop(acts) || Unguarded(acts)
    decreases |acts| - n, 1
  {
    AlwaysInv(ss, acts, n);
    var k := StoresLater(ss, acts, n, c);
    var l := StoresLater(ss, acts, n, d);
    if l < k {
      OpenAfterStore(ss, acts, n, l, k, c);
    } else {
      OpenAfterStore(ss, acts, n, k, l, d);
    }
  }

  lemma {:induction false} OpenAfterStore(ss: seq<State>, acts: seq<Action>, n: nat, k: nat, l: nat, d: nat)
    requires Execution(ss, acts) && Over(ss[|acts|]) && InTurn(acts)
    requires n <= k < l < |acts| && acts[k].Store? && acts[l].Store? && acts[l].call == d && Between(ss[n], d)
    ensures AddMeetsStop(acts) || Unguarded(acts)
    decreases |acts| - n, 0
  {
    if !Gap(acts, k, l) {
      var g :| k < g < l && Guards(acts[g]);
      BetweenUntil(ss, acts, n, g, l, d);
      if acts[g].Read? {
        ReadInsideAdd(ss, acts, g, d);
      } else {
        assert Enabled(ss[g], acts[g]) && ss[g + 1] == Step(ss[g], acts[g]);
        AlwaysInv(ss, acts, g);
        TwoOpen(ss, acts, g + 1, acts[g].call, d);
      }
    }
  }

  lemma {:induction false} OverlapShows(ss: seq<State>, acts: seq<Action>, i: nat, j: nat, k: nat)
    requires Execution(ss, acts) && Over(ss[|acts|]) && InTurn(acts) && i < j < k < |acts|
    requires acts[i].Take? && acts[j].Take? && acts[k].Store? && acts[k].call == acts[i].call
    ensures AddMeetsStop(acts) || Unguarded(acts)
  {
    assert Enabled(ss[i], acts[i]) && ss[i + 1] == Step(ss[i], acts[i]);
    assert Enabled(ss[j], acts[j]) && ss[j + 1] == Step(ss[j], acts[j]);
    AlwaysInv(ss, acts, i);
    AlwaysInv(ss, acts, j);
    CallsStay(ss, acts, i + 1, j);
    CallsStay(ss, acts, j + 1, k);
    assert Enabled(ss[k], acts[k]);
    TwoOpen(ss, acts, j + 1, acts[i].call, acts[j].call);
  }

  /** With Adds and stop requests only, the latter one after the other: no handler is orphaned if and only if no call took
      between another's take and store, and none overlapped a stop request. */
  lemma OrphanIffOverlap(ss: seq<State>, acts: seq<Action>)
    requires Execution(ss, acts) && Over(ss[|acts|]) && AtOnce(acts) && InTurn(acts)
    ensures Orphans(ss[|acts|]) == {} <==> !AddsOverlap(acts) && !AddMeetsStop(acts)
  {
    NoOrphansIffGuarded(ss, acts);
    if f: nat, q: nat, k: nat :| Span(acts, f, q, k) {
      SpanMeets(acts, f, q, k);
    }
    if i: nat, j: nat :| Gap(acts, i, j) {
      GapOverlaps(ss, acts, i, j);
    }
    if f: nat, s: nat, p: nat, q: nat :| Meet(acts, f, s, p, q) {
      MeetShows(ss, acts, f, s, p, q);
    }
    if i, j, k :|
      0 <= i < j < k < |acts| && acts[i].Take? && acts[j].Take? && acts[k].Store? && acts[k].call == acts[i].call
    {
      OverlapShows(ss, acts, i, j, k);
    }
  }

  /** Calls of Add alone: no handler is orphaned if and only if none overlap. */
  lemma AddsAlone(ss: seq<State>, acts: seq<Action>)
    requires Execution(ss, acts) && Over(ss[|acts|])
    requires forall i :: 0 <= i < |acts| ==> acts[i].Find? || acts[i].Take? || acts[i].Store? || acts[i].StopRead?
    ensures Orphans(ss[|acts|]) == {} <==> !AddsOverlap(acts)
  {
    forall j | 0 <= j < |acts| && acts[j].Find? ensures acts[j].at == Deletes(acts, j) {
      assert Enabled(ss[j], acts[j]);
      EpochCounts(ss, acts, j);
      DeletesGrow(acts, 0, j);
    }
    OrphanIffOverlap(ss, acts);
    if f: nat, s: nat, p: nat, q: nat :| Meet(acts, f, s, p, q) {
      assert acts[p].Read?;
    }
  }

  // ------------------------------------------------------------------ runs

  ghost predicate Ends(ss: seq<State>, acts: seq<Action>, s: State) {
    Execution(ss, acts) && ss[|acts|] == s
  }

  /** One more step. */
  lemma {:induction false} Then(ss: seq<State>, acts: seq<Action>, s: State, a: Action) returns (longer: seq<State>)
    requires Ends(ss, acts, s) && Enabled(s, a)
    ensures Ends(longer, acts + [a], Step(s, a))
  {
    longer := ss + [Step(s, a)];
    forall i | 0 <= i < |acts + [a]|
      ensures Enabled(longer[i], (acts + [a])[i]) && longer[i + 1] == Step(longer[i], (acts + [a])[i])
    {
      if i < |acts| {
        assert Enabled(ss[i], acts[i]) && ss[i + 1] == Step(ss[i], acts[i]);
      }
    }
  }

  lemma {:induction false} StopRuns(ss: seq<State>, acts: seq<Action>, s: State, h: nat) returns (longer: seq<State>)
    requires Ends(ss, acts, s) && s.due == {} && s.slots == map[0 := h] && s.epoch == 0
    ensures Ends(longer, acts + [Read(0), StopRead(h)], s.(stopped := s.stopped + {h}))
  {
    longer := Then(ss, acts, s, Read(0));
    longer := Then(longer, acts + [Read(0)], Step(s, Read(0)), StopRead(h));
    assert acts + [Read(0)] + [StopRead(h)] == acts + [Read(0), StopRead(h)];
    assert Step(Step(s, Read(0)), StopRead(h)).due == {};
  }

  /** Two calls that have found the same inner map and taken from it. */
  function BothTaken(): State {
    State(0, map[0 := 0, 1 := 0], map[], {0, 1}, {}, {}, {})
  }

  lemma {:induction false} TakeBoth() returns (ss: seq<State>, acts: seq<Action>)
    ensures acts == [Find(0, 0), Find(1, 0), Take(0, 0), Take(1, 0)] && Ends(ss, acts, BothTaken())
  {
    var s0 := State(0, map[], map[], {}, {}, {}, {});
    var s1 := Step(s0, Find(0, 0));
    var s2 := Step(s1, Find(1, 0));
    var s3 := Step(s2, Take(0, 0));
    ss, acts := [s0, s1, s2, s3, BothTaken()], [Find(0, 0), Find(1, 0), Take(0, 0), Take(1, 0)];
    assert Step(s3, Take(1, 0)) == BothTaken();
  }

  /** Two calls both take before either stores: the first one's handler runs on, with nobody to stop it. */
  lemma {:induction false} RacingAddsOrphan() returns (ss: seq<State>, acts: seq<Action>)
    ensures acts == [Find(0, 0), Find(1, 0), Take(0, 0), Take(1, 0), Store(0, 0), Store(1, 0)] && Execution(ss, acts)
    ensures Over(ss[6]) && Orphans(ss[6]) == {0} && Slot(ss[6], ss[6].epoch) == {1}
  {
    ss, acts := TakeBoth();
    var s5 := Step(BothTaken(), Store(0, 0));
    ss := Then(ss, acts, BothTaken(), Store(0, 0));
    ss := Then(ss, acts + [Store(0, 0)], s5, Store(1, 0));
    acts := acts + [Store(0, 0)] + [Store(1, 0)];
  }

  /** A whole Add between the reading of a stop request and its detaching: its handler goes without being stopped. */
  lemma {:induction false} AddInsideStopOrphans() returns (ss: seq<State>, acts: seq<Action>)
    ensures acts == [Read(0), Find(0, 0), Take(0, 0), Store(0, 0), Detach] && Execution(ss, acts)
    ensures Over(ss[5]) && Orphans(ss[5]) == {0}
  {
    var s0 := State(0, map[], map[], {}, {}, {}, {});
    var s1 := Step(s0, Read(0));
    var s2 := Step(s1, Find(0, 0));
    var s3 := Step(s2, Take(0, 0));
    var s4 := Step(s3, Store(0, 0));
    var s5 := Step(s4, Detach);
    ss, acts := [s0, s1, s2, s3, s4, s5], [Read(0), Find(0, 0), Take(0, 0), Store(0, 0), Detach];
    assert s5.stored == {0} && s5.stopped == {} && s5.epoch !in s5.slots;
  }

  /** A call that found its inner map before a stop request, and stores into it after: nothing leads to that map any more. */
  lemma {:induction false} StopInsideAddOrphans() returns (ss: seq<State>, acts: seq<Action>)
    ensures acts == [Find(0, 0), Read(0), Detach, Take(0, 0), Store(0, 0)] && Execution(ss, acts)
    ensures Over(ss[5]) && Orphans(ss[5]) == {0}
  {
    var s0 := State(0, map[], map[], {}, {}, {}, {});
    var s1 := Step(s0, Find(0, 0));
    var s2 := Step(s1, Read(0));
    var s3 := Step(s2, Detach);
    var s4 := Step(s3, Take(0, 0));
    var s5 := Step(s4, Store(0, 0));
    ss, acts := [s0, s1, s2, s3, s4, s5], [Find(0, 0), Read(0), Detach, Take(0, 0), Store(0, 0)];
    assert s5.stored == {0} && s5.stopped == {} && s5.epoch !in s5.slots;
  }

  function Rescued(): seq<Action> {
    [Find(0, 0), Find(1, 0), Take(0, 0), Take(1, 0), Store(0, 0), Read(0), StopRead(0), Store(1, 0)]
  }

  lemma {:induction false} RescuedOverlap(acts: seq<Action>)
    requires acts == Rescued()
    ensures AddsOverlap(acts)
  {
    assert acts[2].Take? && acts[3].Take? && acts[4].Store? && acts[4].call == acts[2].call;
  }

  /** Two Adds overlap, and yet nobody is orphaned: another request reads the first handler before the second overwrites it. */
  lemma {:induction false} RescuedRun() returns (ss: seq<State>, acts: seq<Action>)
    ensures acts == Rescued() && Execution(ss, acts)
    ensures AddsOverlap(acts) && Over(ss[8]) && Orphans(ss[8]) == {}
  {
    ss, acts := TakeBoth();
    ss := Then(ss, acts, BothTaken(), Store(0, 0));
    acts := acts + [Store(0, 0)];
    var s1 := State(0, map[0 := 0, 1 := 0], map[0 := 0], {0, 1}, {0}, {}, {});
    ss := StopRuns(ss, acts, s1, 0);
    acts := acts + [Read(0), StopRead(0)];
    ss := Then(ss, acts, s1.(stopped := {0}), Store(1, 0));
    acts := acts + [Store(1, 0)];
    RescuedOverlap(acts);
  }

  /** The steps of an Add on its own. */
  function WholeAdd(c: nat): seq<Action> {
    [Find(c, 0), Take(c, 0), Store(c, 0)]
  }

  /** What comes before the Add in recreating a pair that holds handler h: Get and Stop, and then what Delete does first. */
  function StopTwice(h: nat): seq<Action> {
    [Read(0), StopRead(h), Read(0), StopRead(h)]
  }

  lemma {:induction false} AddRuns(ss: seq<State>, acts: seq<Action>, s: State, c: nat) returns (longer: seq<State>)
    requires Ends(ss, acts, s) && s.due == {} && s.slots == map[] && s.epoch == 0 && s.taken == s.stored
    requires c !in s.found && c !in s.stored
    ensures Ends(longer, acts + WholeAdd(c),
        s.(found := s.found[c := 0], slots := map[0 := c], taken := s.taken + {c}, stored := s.stored + {c}))
  {
    var s1 := Step(s, Find(c, 0));
    var s2 := Step(s1, Take(c, 0));
    longer := Then(ss, acts, s, Find(c, 0));
    longer := Then(longer, acts + [Find(c, 0)], s1, Take(c, 0));
    longer := Then(longer, acts + [Find(c, 0)] + [Take(c, 0)], s2, Store(c, 0));
    assert acts + [Find(c, 0)] + [Take(c, 0)] + [Store(c, 0)] == acts + WholeAdd(c);
    assert s2.slots == map[] && s2.due == {};
  }

  lemma {:induction false} StopTwiceRuns(ss: seq<State>, acts: seq<Action>, s: State, h: nat) returns (longer: seq<State>)
    requires Ends(ss, acts, s) && s.due == {} && s.slots == map[0 := h] && s.epoch == 0
    ensures Ends(longer, acts + StopTwice(h), s.(stopped := s.stopped + {h}))
  {
    longer := StopRuns(ss, acts, s, h);
    longer := StopRuns(longer, acts + [Read(0), StopRead(h)], s.(stopped := s.stopped + {h}), h);
    assert acts + [Read(0), StopRead(h)] + [Read(0), StopRead(h)] == acts + StopTwice(h);
    assert s.stopped + {h} + {h} == s.stopped + {h};
  }

  /** Both have stopped handler 0, and one has deleted it. */
  lemma {:induction false} StoppedByBoth() returns (ss: seq<State>, acts: seq<Action>, s: State)
    ensures acts == WholeAdd(0) + StopTwice(0) + StopTwice(0) + [Remove(0)] && Ends(ss, acts, s)
    ensures s == State(0, map[0 := 0], map[], {0}, {0}, {}, {0})
  {
    var s0 := State(0, map[], map[], {}, {}, {}, {});
    var s1 := State(0, map[0 := 0], map[0 := 0], {0}, {0}, {}, {});
    ss := AddRuns([s0], [], s0, 0);
    ss := StopTwiceRuns(ss, WholeAdd(0), s1, 0);
    var s2 := s1.(stopped := {0});
    ss := StopTwiceRuns(ss, WholeAdd(0) + StopTwice(0), s2, 0);
    ss := Then(ss, WholeAdd(0) + StopTwice(0) + StopTwice(0), s2, Remove(0));
    acts := WholeAdd(0) + StopTwice(0) + StopTwice(0) + [Remove(0)];
    s := Step(s2, Remove(0));
  }

  function TwoRecreations(): seq<Action> {
    WholeAdd(0) + StopTwice(0) + StopTwice(0) + [Remove(0)] + WholeAdd(2) + [Remove(0)] + WholeAdd(1)
  }

  /** Each Add is over before the next begins, and only the handler of the second goes unread. */
  lemma {:induction false} RecreationsApart(acts: seq<Action>)
    requires acts == TwoRecreations()
    ensures !AddsOverlap(acts) && Gap(acts, 14, 15)
    ensures forall i :: 0 <= i < |acts| ==> !acts[i].Detach?
  {
    assert acts[0..3] == WholeAdd(0) && acts[3..7] == StopTwice(0) && acts[7..11] == StopTwice(0);
    assert acts[12..15] == WholeAdd(2) && acts[16..19] == WholeAdd(1);
  }

  /** Two requests recreate the handler of a pair, one after the other as far as their Adds are concerned, and nobody asks
      for a stop. Both stop the old handler 0; one deletes it and brings handler 2; and then the other deletes that instead,
      and brings handler 1. */
  lemma {:induction false} TwoRecreationsOrphan() returns (ss: seq<State>, acts: seq<Action>)
    ensures acts == TwoRecreations() && Execution(ss, acts)
    ensures Over(ss[19]) && Orphans(ss[19]) == {2}
    ensures !AddsOverlap(acts) && Gap(acts, 14, 15) && forall i :: 0 <= i < |acts| ==> !acts[i].Detach?
  {
    var s1, s2;
    ss, acts, s1 := StoppedByBoth();
    ss := AddRuns(ss, acts, s1, 2);
    acts := acts + WholeAdd(2);
    s2 := State(0, map[0 := 0, 2 := 0], map[0 := 2], {0, 2}, {0, 2}, {}, {0});
    ss := Then(ss, acts, s2, Remove(0));
    acts := acts + [Remove(0)];
    ss := AddRuns(ss, acts, s2.(slots := map[]), 1);
    acts := acts + WholeAdd(1);
    RecreationsApart(acts);
  }
}
