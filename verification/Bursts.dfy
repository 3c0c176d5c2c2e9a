/** What debouncing one key means, said twice: as an automaton fed one submission at a time, and
    offline, by cutting the whole history of submissions into bursts. The two are proved equal. */
module Bursts {
  import opened Events

  /** An event and the instant at which it was submitted. */
  datatype Stamp = Stamp(event: Event, at: int)

  /** One key of the debouncer: no window, or an open one with its buffered count and the instant its timer fires. */
  datatype KeyState = Idle | Open(last: Event, count: nat, deadline: int)

  function Last<T>(s: seq<T>): T
    requires s != []
  {
    s[|s| - 1]
  }

  function Front<T>(s: seq<T>): seq<T>
    requires s != []
  {
    s[..|s| - 1]
  }

  predicate Due(ks: KeyState, t: int) {
    ks.Open? && ks.deadline <= t
  }

  function Fire(ks: KeyState, t: int): KeyState {
    if Due(ks, t) then Idle else ks
  }

  /** What an entry leaves behind when it is flushed at instant t. */
  function Flushed(ks: KeyState, t: int): seq<Emission> {
    if ks.Open? && ks.count > 0 then [Emission(ks.last, ks.count, t)] else []
  }

  function FireOut(ks: KeyState, t: int): seq<Emission> {
    if Due(ks, t) then Flushed(ks, ks.deadline) else []
  }

  function Hit(ks: KeyState, e: Event, t: int, w: int): KeyState {
    Open(e, if ks.Open? then ks.count + 1 else 0, t + w)
  }

  function HitOut(ks: KeyState, e: Event, t: int): seq<Emission> {
    if ks.Open? then [] else [Emission(e, 1, t)]
  }

  /** The online automaton for one key: the timer fires before a submission at the same instant. */
  function Online(s: seq<Stamp>, w: int): (KeyState, seq<Emission>) {
    if s == [] then (Idle, [])
    else
      var (ks, tr) := Online(Front(s), w);
      var x := Last(s);
      var ready := Fire(ks, x.at);
      (Hit(ready, x.event, x.at, w), tr + FireOut(ks, x.at) + HitOut(ready, x.event, x.at))
  }

  ghost predicate Ordered(s: seq<Stamp>) {
    forall i, j :: 0 <= i <= j < |s| ==> s[i].at <= s[j].at
  }

  /** The trace of one key once its last timer had the chance to fire up to the horizon. */
  function OnlineTrace(s: seq<Stamp>, w: int, horizon: int): seq<Emission> {
    Online(s, w).1 + FireOut(Online(s, w).0, horizon)
  }

  // ------------------------------------------------------------------ the offline reading

  /** No gap inside b reaches the window. */
  ghost predicate Tight(b: seq<Stamp>, w: int) {
    forall j :: 0 <= j < |b| - 1 ==> b[j + 1].at - b[j].at < w
  }

  /** bs cuts s into maximal runs: it splits s, gaps inside a run are below the window, gaps between runs are not. */
  ghost predicate IsCut(bs: seq<seq<Stamp>>, s: seq<Stamp>, w: int) {
    if bs == [] then s == []
    else
      var b := Last(bs);
      var n := |s| - |b|;
      && b != [] && n >= 0 && s[n..] == b && Tight(b, w)
      && (n > 0 ==> b[0].at - s[n - 1].at >= w)
      && IsCut(Front(bs), s[..n], w)
  }

  function Leading(b: seq<Stamp>): Emission
    requires b != []
  {
    Emission(b[0].event, 1, b[0].at)
  }

  /** The aggregate that closes a burst of n > 1 events: its last event, counted n - 1 times, emitted at instant t. */
  function Trailing(b: seq<Stamp>, t: int): seq<Emission>
    requires b != []
  {
    if |b| > 1 then [Emission(Last(b).event, |b| - 1, t)] else []
  }

  /** What one burst emits when it is watched until it ends. */
  function BurstEmits(b: seq<Stamp>, w: int): seq<Emission>
    requires b != []
  {
    [Leading(b)] + Trailing(b, Last(b).at + w)
  }

  function Emits(bs: seq<seq<Stamp>>, w: int): seq<Emission> {
    if bs == [] then []
    else Emits(Front(bs), w) + (if Last(bs) == [] then [] else BurstEmits(Last(bs), w))
  }

  /** What the bursts of one key emit up to the horizon: the last burst may still be open. */
  function EmitsUntil(bs: seq<seq<Stamp>>, w: int, horizon: int): seq<Emission>
    requires bs != [] ==> Last(bs) != []
  {
    if bs == [] then []
    else
      var b := Last(bs);
      Emits(Front(bs), w) + [Leading(b)] + (if Last(b).at + w <= horizon then Trailing(b, Last(b).at + w) else [])
  }

  /** What becomes of a cut when the last submission is dropped: a run of one goes, a longer one gets shorter. */
  lemma {:induction false} CutDropsRun(bs: seq<seq<Stamp>>, s: seq<Stamp>, w: int)
    requires IsCut(bs, s, w) && bs != [] && |Last(bs)| == 1
    ensures s != [] && Last(bs) == [Last(s)] && IsCut(Front(bs), Front(s), w)
  {
    assert s[|s| - 1..][0] == Last(s);
  }

  lemma {:induction false} CutShortensRun(bs: seq<seq<Stamp>>, s: seq<Stamp>, w: int)
    requires IsCut(bs, s, w) && bs != [] && |Last(bs)| > 1
    ensures s != [] && Last(s) == Last(Last(bs)) && IsCut(Front(bs) + [Front(Last(bs))], Front(s), w)
  {
    var b := Last(bs);
    var n := |s| - |b|;
    var cut: seq<seq<Stamp>> := Front(bs) + [Front(b)];
    assert Front(cut) == Front(bs) && Last(cut) == Front(b);
    assert Front(s)[n..] == Front(s[n..]) && Front(s)[..n] == s[..n];
    assert Tight(Front(b), w);
  }

  /** The window is open for burst b, whose events so far have been counted, and tr has been emitted. */
  ghost predicate During(s: seq<Stamp>, w: int, b: seq<Stamp>, tr: seq<Emission>) {
    && s != [] && b != [] && Last(s) == Last(b)
    && Online(s, w).0 == Open(Last(b).event, |b| - 1, Last(b).at + w)
    && Online(s, w).1 == tr
  }

  lemma {:induction false} BurstGoesOn(s: seq<Stamp>, w: int, b: seq<Stamp>, tr: seq<Emission>)
    requires s != [] && |b| > 1 && Tight(b, w) && Last(s) == Last(b) && During(Front(s), w, Front(b), tr)
    ensures During(s, w, b, tr)
  {
    assert b[|b| - 2 + 1].at - b[|b| - 2].at < w;
  }

  lemma {:induction false} BurstStarts(s: seq<Stamp>, w: int, b: seq<Stamp>, tr: seq<Emission>)
    requires s != [] && During(Front(s), w, b, tr) && Last(s).at - Last(b).at >= w
    ensures During(s, w, [Last(s)], tr + Trailing(b, Last(b).at + w) + [Leading([Last(s)])])
  {
  }

  /** What has been emitted once a burst has begun. */
  function EmitsSoFar(bs: seq<seq<Stamp>>, w: int): seq<Emission>
    requires bs != [] && Last(bs) != []
  {
    Emits(Front(bs), w) + [Leading(Last(bs))]
  }

  lemma {:induction false} EmitsOneMore(bs: seq<seq<Stamp>>, w: int)
    requires |bs| > 1 && Last(bs) != [] && Last(Front(bs)) != []
    ensures var c := Last(Front(bs));
            EmitsSoFar(bs, w) == EmitsSoFar(Front(bs), w) + Trailing(c, Last(c).at + w) + [Leading(Last(bs))]
  {
  }

  lemma {:induction false} InNewBurst(s: seq<Stamp>, bs: seq<seq<Stamp>>, w: int)
    requires w > 0 && s != [] && IsCut(bs, s, w) && bs != [] && Last(bs) == [Last(s)] && IsCut(Front(bs), Front(s), w)
    requires |s| > 1 ==> Front(bs) != [] && Last(Front(bs)) != []
    requires |s| > 1 ==> During(Front(s), w, Last(Front(bs)), EmitsSoFar(Front(bs), w))
    ensures During(s, w, [Last(s)], EmitsSoFar(bs, w))
  {
    if |s| > 1 {
      BurstStarts(s, w, Last(Front(bs)), EmitsSoFar(Front(bs), w));
      EmitsOneMore(bs, w);
    } else {
      assert Front(s) == [] && Front(bs) == [];
    }
  }

  /** After a non-empty history the window is open for the last burst, and everything before it has been emitted. */
  lemma {:induction false} OnlineInBurst(s: seq<Stamp>, bs: seq<seq<Stamp>>, w: int)
    requires w > 0 && IsCut(bs, s, w) && bs != []
    ensures Last(bs) != [] && During(s, w, Last(bs), EmitsSoFar(bs, w))
    decreases |s|
  {
    var b := Last(bs);
    if |b| > 1 {
      CutShortensRun(bs, s, w);
      var cut: seq<seq<Stamp>> := Front(bs) + [Front(b)];
      assert Front(cut) == Front(bs) && Last(cut) == Front(b);
      OnlineInBurst(Front(s), cut, w);
      BurstGoesOn(s, w, b, EmitsSoFar(cut, w));
    } else {
      CutDropsRun(bs, s, w);
      if |s| > 1 {
        OnlineInBurst(Front(s), Front(bs), w);
      }
      InNewBurst(s, bs, w);
    }
  }

  /** Burst semantics: the online trace of a key is what its bursts say. */
  lemma {:induction false} OnlineIsOffline(s: seq<Stamp>, bs: seq<seq<Stamp>>, w: int, horizon: int)
    requires w > 0 && IsCut(bs, s, w)
    ensures OnlineTrace(s, w, horizon) == EmitsUntil(bs, w, horizon)
  {
    if bs == [] {
      assert s == [];
    } else {
      OnlineInBurst(s, bs, w);
      var b := Last(bs);
      assert FireOut(Online(s, w).0, horizon) == if Last(b).at + w <= horizon then Trailing(b, Last(b).at + w) else [];
    }
  }

  lemma {:induction false} CutNewRun(s: seq<Stamp>, w: int, cut: seq<seq<Stamp>>)
    requires s != [] && IsCut(cut, Front(s), w) && (cut == [] || Last(s).at - Last(Front(s)).at >= w)
    ensures IsCut(cut + [[Last(s)]], s, w)
  {
    assert Front(cut + [[Last(s)]]) == cut;
  }

  lemma {:induction false} CutLongerRun(s: seq<Stamp>, w: int, cut: seq<seq<Stamp>>)
    requires s != [] && cut != [] && IsCut(cut, Front(s), w) && Last(s).at - Last(Front(s)).at < w
    ensures IsCut(Front(cut) + [Last(cut) + [Last(s)]], s, w)
  {
    var b := Last(cut) + [Last(s)];
    var n := |s| - |b|;
    assert Front(Front(cut) + [b]) == Front(cut) && s[..n] == Front(s)[..n];
    assert s[n..] == b;
  }

  /** Every history has such a cut, so the offline reading always says something. */
  lemma {:induction false} CutExists(s: seq<Stamp>, w: int) returns (bs: seq<seq<Stamp>>)
    ensures IsCut(bs, s, w)
  {
    if s == [] {
      bs := [];
    } else {
      var cut := CutExists(Front(s), w);
      if cut == [] || Last(s).at - Last(Front(s)).at >= w {
        CutNewRun(s, w, cut);
        bs := cut + [[Last(s)]];
      } else {
        CutLongerRun(s, w, cut);
        bs := Front(cut) + [Last(cut) + [Last(s)]];
      }
    }
  }

  lemma {:induction false} SameLastRun(s: seq<Stamp>, w: int, bs: seq<seq<Stamp>>, cs: seq<seq<Stamp>>)
    requires IsCut(bs, s, w) && IsCut(cs, s, w) && bs != [] && cs != []
    ensures |Last(bs)| <= |Last(cs)|
  {
  }

  /** And only one: the cut is determined by the history. */
  lemma {:induction false} CutUnique(s: seq<Stamp>, w: int, bs: seq<seq<Stamp>>, cs: seq<seq<Stamp>>)
    requires IsCut(bs, s, w) && IsCut(cs, s, w)
    ensures bs == cs
    decreases |s|
  {
    if bs != [] && cs != [] {
      SameLastRun(s, w, bs, cs);
      SameLastRun(s, w, cs, bs);
      CutUnique(s[..|s| - |Last(bs)|], w, Front(bs), Front(cs));
      assert bs == Front(bs) + [Last(bs)] && cs == Front(cs) + [Last(cs)];
    }
  }

  // ------------------------------------------------------------------ the rate bound

  /** Emissions come in time order, and any third one is at least a window after the first. */
  ghost predicate Spaced(tr: seq<Emission>, w: int) {
    && (forall i :: 0 <= i < |tr| - 1 ==> tr[i].at <= tr[i + 1].at)
    && (forall i :: 0 <= i < |tr| - 2 ==> tr[i].at + w <= tr[i + 2].at)
  }

  /** What must hold for one more emission at instant t to keep the spacing. */
  ghost predicate RoomAt(tr: seq<Emission>, t: int, w: int) {
    && (|tr| >= 1 ==> tr[|tr| - 1].at <= t)
    && (|tr| >= 2 ==> tr[|tr| - 2].at + w <= t)
  }

  lemma SpacedSnoc(tr: seq<Emission>, e: Emission, w: int)
    requires Spaced(tr, w) && RoomAt(tr, e.at, w)
    ensures Spaced(tr + [e], w)
  {
  }

  /** An open window's last emission is its leading one, a window or more before the timer. */
  ghost predicate Steady(ks: KeyState, tr: seq<Emission>, w: int) {
    && Spaced(tr, w)
    && ks.Open? && tr != [] && Last(tr).at + w <= ks.deadline
  }

  lemma FireKeepsRoom(ks: KeyState, tr: seq<Emission>, w: int, t: int)
    requires w > 0 && Steady(ks, tr, w)
    ensures Spaced(tr + FireOut(ks, t), w)
    ensures Due(ks, t) ==> RoomAt(tr + FireOut(ks, t), t, w)
  {
    var n := |tr|;
    if n >= 2 {
      assert tr[n - 2].at <= tr[n - 2 + 1].at;
    }
    if Due(ks, t) && ks.count > 0 {
      SpacedSnoc(tr, Emission(ks.last, ks.count, ks.deadline), w);
    } else {
      assert tr + FireOut(ks, t) == tr;
    }
  }

  lemma {:induction false} OnlineSteady(s: seq<Stamp>, w: int)
    requires w > 0 && Ordered(s) && s != []
    ensures Steady(Online(s, w).0, Online(s, w).1, w) && Online(s, w).0.deadline == Last(s).at + w
  {
    var x := Last(s);
    if |s| == 1 {
      assert Online(Front(s), w) == (Idle, []);
    } else {
      var (ks, tr) := Online(Front(s), w);
      OnlineSteady(Front(s), w);
      FireKeepsRoom(ks, tr, w, x.at);
      assert Last(Front(s)).at <= x.at;
      if Due(ks, x.at) {
        SpacedSnoc(tr + FireOut(ks, x.at), Emission(x.event, 1, x.at), w);
      } else {
        assert tr + FireOut(ks, x.at) + HitOut(ks, x.event, x.at) == tr;
      }
    }
  }

  lemma OnlineSpaced(s: seq<Stamp>, w: int, horizon: int)
    requires w > 0 && Ordered(s)
    ensures Spaced(OnlineTrace(s, w, horizon), w)
  {
    if s != [] {
      OnlineSteady(s, w);
      FireKeepsRoom(Online(s, w).0, Online(s, w).1, w, horizon);
    }
  }

  function InInterval(tr: seq<Emission>, a: int, b: int): (n: nat)
    ensures n <= |tr|
  {
    if tr == [] then 0 else InInterval(Front(tr), a, b) + (if a <= Last(tr).at < b then 1 else 0)
  }

  /** It counts the emissions from a on and before b. */
  lemma {:induction false} IntervalCounts(tr: seq<Emission>, a: int, b: int)
    ensures InInterval(tr, a, b) == |set i | 0 <= i < |tr| && a <= tr[i].at < b|
  {
    var all := set i | 0 <= i < |tr| && a <= tr[i].at < b;
    if tr == [] {
      assert all == {};
    } else {
      var n := |tr| - 1;
      IntervalCounts(Front(tr), a, b);
      var front := set i | 0 <= i < |Front(tr)| && a <= Front(tr)[i].at < b;
      assert all == front + if a <= tr[n].at < b then {n} else {};
    }
  }

  lemma {:induction false} NoneBefore(tr: seq<Emission>, a: int, b: int)
    requires forall i :: 0 <= i < |tr| ==> tr[i].at < a
    ensures InInterval(tr, a, b) == 0
  {
    if tr == [] {
    } else {
      NoneBefore(Front(tr), a, b);
    }
  }

  lemma {:induction false} SortedUpTo(tr: seq<Emission>, w: int, i: nat, j: nat)
    requires Spaced(tr, w) && i <= j < |tr|
    ensures tr[i].at <= tr[j].at
    decreases j - i
  {
    if i == j {
    } else {
      SortedUpTo(tr, w, i, j - 1);
    }
  }

  lemma {:induction false} TwoPerWindow(tr: seq<Emission>, w: int, a: int)
    requires w > 0 && Spaced(tr, w)
    ensures InInterval(tr, a, a + w) <= 2
  {
    if |tr| > 2 {
      assert Spaced(Front(tr), w);
      TwoPerWindow(Front(tr), w, a);
      if a <= Last(tr).at < a + w {
        var early := Front(Front(tr));
        forall i | 0 <= i < |early| ensures early[i].at < a {
          SortedUpTo(tr, w, i, |tr| - 3);
          assert tr[|tr| - 3].at + w <= tr[|tr| - 3 + 2].at;
        }
        NoneBefore(early, a, a + w);
      }
    }
  }

  lemma {:induction false} IntervalSplits(tr: seq<Emission>, a: int, b: int, c: int)
    requires a <= b <= c
    ensures InInterval(tr, a, c) == InInterval(tr, a, b) + InInterval(tr, b, c)
  {
    if tr == [] {
    } else {
      IntervalSplits(Front(tr), a, b, c);
    }
  }

  lemma {:induction false} EmptyInterval(tr: seq<Emission>, a: int)
    ensures InInterval(tr, a, a) == 0
  {
    if tr == [] {
    } else {
      EmptyInterval(Front(tr), a);
    }
  }

  /** However many events were submitted, an interval of m windows holds at most 2m emissions for the key. */
  lemma {:induction false} RateBound(s: seq<Stamp>, w: int, horizon: int, a: int, m: nat)
    requires w > 0 && Ordered(s)
    ensures InInterval(OnlineTrace(s, w, horizon), a, a + m * w) <= 2 * m
  {
    var tr := OnlineTrace(s, w, horizon);
    if m == 0 {
      EmptyInterval(tr, a);
    } else {
      RateBound(s, w, horizon, a, m - 1);
      OnlineSpaced(s, w, horizon);
      var mid := a + (m - 1) * w;
      assert a <= mid && mid + w == a + m * w;
      TwoPerWindow(tr, w, mid);
      IntervalSplits(tr, a, mid, mid + w);
    }
  }
}
