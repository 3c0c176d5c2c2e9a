/** Whom a pull reaches, told from the master's answers alone, and what it brings to each of them. */
module PullReach {
  import opened Options
  import opened Registry
  import opened RegistryLaws
  import opened PullTermination

  // ------------------------------------------------------------------ one answer

  lemma {:induction false} KidIsReached(c: ClientId, kids: seq<ClientId>, master: ClientId -> Answer, depth: nat, d: ClientId)
    requires depth > 0 && d in kids && d != c
    ensures forall x :: x in Reached(d, master, depth - 1) ==> x in ReachedFrom(c, kids, master, depth)
  {
    if kids[0] != d {
      KidIsReached(c, kids[1..], master, depth, d);
    }
  }

  /** An answer that says that the client exists and is not stopped has each listed child pulled but the client itself. */
  lemma {:induction false} ListedAreReached(c: ClientId, master: ClientId -> Answer, depth: nat, d: ClientId)
    requires depth > 0 && master(c).Client? && !master(c).stopped && d in master(c).children && d != c
    ensures forall x :: x in Reached(d, master, depth - 1) ==> x in Reached(c, master, depth)
  {
    KidIsReached(c, master(c).children, master, depth, d);
  }

  lemma {:induction false} SelfIsSkipped(c: ClientId, kids: seq<ClientId>, master: ClientId -> Answer, depth: nat)
    requires depth > 0 && forall d :: d in kids ==> d == c
    ensures ReachedFrom(c, kids, master, depth) == []
  {
    if kids != [] {
      assert kids[0] in kids && forall d :: d in kids[1..] ==> d in kids;
      SelfIsSkipped(c, kids[1..], master, depth);
    }
  }

  /** Any other answer has nobody else pulled. */
  lemma OthersReachNobody(c: ClientId, master: ClientId -> Answer, depth: nat)
    requires !master(c).Client? || master(c).stopped || forall d :: d in master(c).children ==> d == c
    ensures c in Reached(c, master, depth) && forall x :: x in Reached(c, master, depth) ==> x == c
  {
    if depth > 0 && master(c).Client? && !master(c).stopped {
      SelfIsSkipped(c, master(c).children, master, depth);
    }
  }

  lemma {:induction false} FromConcat(
    c: ClientId, first: seq<ClientId>, rest: seq<ClientId>, master: ClientId -> Answer, depth: nat)
    requires depth > 0
    ensures ReachedFrom(c, first + rest, master, depth) ==
            ReachedFrom(c, first, master, depth) + ReachedFrom(c, rest, master, depth)
    decreases |first|
  {
    if first == [] {
      assert first + rest == rest;
    } else {
      assert (first + rest)[0] == first[0] && (first + rest)[1..] == first[1..] + rest;
      FromConcat(c, first[1..], rest, master, depth);
    }
  }

  /** Children are pulled after their parent, each between those listed before it and those listed after it. */
  lemma {:induction false} ReachedInOrder(
    c: ClientId, first: seq<ClientId>, d: ClientId, rest: seq<ClientId>, master: ClientId -> Answer, depth: nat)
    requires depth > 0 && d != c
    requires master(c).Client? && !master(c).stopped && master(c).children == first + [d] + rest
    ensures Reached(c, master, depth) ==
            [c] + ReachedFrom(c, first, master, depth) + Reached(d, master, depth - 1) + ReachedFrom(c, rest, master, depth)
  {
    FromConcat(c, first + [d], rest, master, depth);
    FromConcat(c, first, [d], master, depth);
    assert [d][1..] == [] && ReachedFrom(c, [d], master, depth) == Reached(d, master, depth - 1) + [];
  }

  /** What a pull returns and leaves, for each answer that acts on no pair of its own: only a failed call and a
      configuration that does not load are errors, and what becomes of children is not. */
  lemma AnswerOutcome(w: World, c: ClientId, master: ClientId -> Answer, frp: Frp, depth: nat)
    requires depth > 0 && Pull(w, c, master, frp, depth).Some?
    ensures var r, a := Pull(w, c, master, frp, depth).value, master(c);
            match a
            case RpcError => r == Outcome(w, false)
            case NoClient => r == Outcome(w, true)
            case Client(stopped, _, children, config, _) =>
              && (stopped || children != [] || config.Blank? ==> r.ok)
              && (!stopped && children == [] && config.Blank? ==> r.world == w)
              && (!stopped && children == [] && config.Text? && config.loaded.Rejected? ==> r == Outcome(w, false))
  {
  }

  /** A pushed configuration that does not load is an error, and changes nothing. */
  lemma RejectedPush(w: World, c: ClientId, s: ServerId, frp: Frp)
    ensures Push(w, c, s, Rejected, frp) == Outcome(w, false)
  {
  }

  // ------------------------------------------------------------------ whom a pull reaches

  /** The answer for c has d pulled. */
  predicate Lists(a: Answer, c: ClientId, d: ClientId) {
    a.Client? && !a.stopped && d in a.children && d != c
  }

  /** Each client on the way is listed by the one before it. */
  ghost predicate Chain(way: seq<ClientId>, master: ClientId -> Answer) {
    way != [] && forall i :: 0 <= i < |way| - 1 ==> Lists(master(way[i]), way[i], way[i + 1])
  }

  ghost predicate Descends(c: ClientId, x: ClientId, master: ClientId -> Answer) {
    exists way: seq<ClientId> :: Chain(way, master) && way[0] == c && way[|way| - 1] == x
  }

  lemma ChainLonger(c: ClientId, way: seq<ClientId>, master: ClientId -> Answer)
    requires Chain(way, master) && Lists(master(c), c, way[0])
    ensures Chain([c] + way, master)
  {
  }

  lemma {:induction false} ReachedDescends(c: ClientId, master: ClientId -> Answer, depth: nat, x: ClientId)
    returns (way: seq<ClientId>)
    requires x in Reached(c, master, depth)
    ensures Chain(way, master) && way[0] == c && way[|way| - 1] == x
    decreases depth, 1, 0
  {
    if x == c {
      way := [c];
    } else {
      way := KidsDescend(c, master(c).children, master, depth, x);
    }
  }

  lemma {:induction false} KidsDescend(c: ClientId, kids: seq<ClientId>, master: ClientId -> Answer, depth: nat, x: ClientId)
    returns (way: seq<ClientId>)
    requires depth > 0 && x in ReachedFrom(c, kids, master, depth)
    requires master(c).Client? && !master(c).stopped && forall d :: d in kids ==> d in master(c).children
    ensures Chain(way, master) && way[0] == c && way[|way| - 1] == x
    decreases depth, 0, |kids|
  {
    if kids[0] != c && x in Reached(kids[0], master, depth - 1) {
      way := ReachedDescends(kids[0], master, depth - 1, x);
      ChainLonger(c, way, master);
      way := [c] + way;
    } else {
      way := KidsDescend(c, kids[1..], master, depth, x);
    }
  }

  lemma {:induction false} DescendsReached(way: seq<ClientId>, master: ClientId -> Answer, depth: nat)
    requires Chain(way, master) && Shallow(way[0], master, depth)
    ensures way[|way| - 1] in Reached(way[0], master, depth)
    decreases |way|
  {
    if |way| > 1 {
      assert Lists(master(way[0]), way[0], way[0 + 1]);
      assert Chain(way[1..], master);
      DescendsReached(way[1..], master, depth - 1);
      ListedAreReached(way[0], master, depth, way[1]);
    }
  }

  /** A pull that ends reaches exactly the clients to which the answers lead: those listed by one that exists and is not
      stopped, from where it started, however many clients are in between. */
  lemma ReachesDescendants(w: World, c: ClientId, master: ClientId -> Answer, frp: Frp, depth: nat, x: ClientId)
    requires Pull(w, c, master, frp, depth).Some?
    ensures x in Reached(c, master, depth) <==> Descends(c, x, master)
  {
    EndsIfShallow(w, c, master, frp, depth);
    if x in Reached(c, master, depth) {
      var way := ReachedDescends(c, master, depth, x);
    }
    if way: seq<ClientId> :| Chain(way, master) && way[0] == c && way[|way| - 1] == x {
      DescendsReached(way, master, depth);
    }
  }

  // ------------------------------------------------------------------ what it brings

  /** The pair holds a handler made from cfg, launched once and not stopped or running yet. */
  ghost predicate Installed(w: World, c: ClientId, s: ServerId, cfg: Config, frp: Frp) {
    && ServesValidated(w, (c, s), cfg, frp)
    && var h := w.handlers[w.reg[(c, s)]]; !h.stopped && !h.running && h.launches == 1
  }

  /** Where the pair has no handler that is kept, it gets one, or none if none can be built. */
  ghost predicate Replaced(w: World, c: ClientId, s: ServerId, cfg: Config, frp: Frp) {
    if Buildable(cfg, frp) then Installed(w, c, s, cfg, frp) else (c, s) !in w.reg
  }

  lemma ReplacedByLocal(w: World, c: ClientId, s: ServerId, cfg: Config, hasOrigin: bool, frp: Frp)
    requires Sound(w) && !Kept(w, (c, s), cfg)
    ensures var v := Local(w, c, Leaf(cfg, s, hasOrigin), frp).world; Replaced(v, c, s, cfg, frp) && !Kept(v, (c, s), cfg)
  {
    LeafConverges(w, c, s, cfg, hasOrigin, frp, Local(w, c, Leaf(cfg, s, hasOrigin), frp));
  }

  lemma ReplacedStays(w: World, d: ClientId, a: Answer, c: ClientId, s: ServerId, cfg: Config, frp: Frp)
    requires Sound(w) && d != c
    ensures var v := Local(w, d, a, frp).world;
            (Replaced(w, c, s, cfg, frp) ==> Replaced(v, c, s, cfg, frp)) && (Kept(v, (c, s), cfg) ==> Kept(w, (c, s), cfg))
  {
    LocalTouchesOnlyItself(w, d, a, frp);
    var v := Local(w, d, a, frp).world;
    if (c, s) in w.reg {
      LocalSpares(w, d, a, frp, c, s);
      if left :| Validated(cfg, frp, left) && Serves(w, (c, s), left) {
        assert Serves(v, (c, s), left);
      }
    }
  }

  lemma {:induction false} FoldReplaces(
    w: World, cs: seq<ClientId>, master: ClientId -> Answer, frp: Frp, c: ClientId, s: ServerId, cfg: Config, hasOrigin: bool)
    requires NoOrphans(w) && master(c) == Leaf(cfg, s, hasOrigin) && !Kept(w, (c, s), cfg)
    requires c in cs || Replaced(w, c, s, cfg, frp)
    ensures Replaced(Fold(w, cs, master, frp), c, s, cfg, frp)
    decreases |cs|
  {
    if cs == [] {
    } else {
      LocalKeeps(w, cs[0], master(cs[0]), frp);
      if cs[0] == c {
        ReplacedByLocal(w, c, s, cfg, hasOrigin, frp);
      } else {
        ReplacedStays(w, cs[0], master(cs[0]), c, s, cfg, frp);
      }
      FoldReplaces(Local(w, cs[0], master(cs[0]), frp).world, cs[1..], master, frp, c, s, cfg, hasOrigin);
    }
  }

  /** A pull that ends delivers to every client that the answers lead to: with the answer a configuration for a server, the
      pair keeps its running handler, with all delivered tunnels, or gets a new one with those that frp accepts, launched
      once, or none if none can be built. */
  lemma PullDelivers(
    w: World, c: ClientId, master: ClientId -> Answer, frp: Frp, depth: nat,
    d: ClientId, s: ServerId, cfg: Config, hasOrigin: bool)
    requires NoOrphans(w) && Pull(w, c, master, frp, depth).Some?
    requires Descends(c, d, master) && master(d) == Client(false, hasOrigin, [], Text(Parsed(cfg)), s)
    ensures var v := Pull(w, c, master, frp, depth).value.world;
            if Kept(w, (d, s), cfg) then Serves(v, (d, s), cfg) && v.reg[(d, s)] == w.reg[(d, s)]
            else Replaced(v, d, s, cfg, frp)
  {
    var cs := Reached(c, master, depth);
    PullIsFold(w, c, master, frp, depth);
    ReachesDescendants(w, c, master, frp, depth, d);
    if Kept(w, (d, s), cfg) {
      var id := w.reg[(d, s)];
      FoldUpdates(w, cs, master, frp, d, s, cfg, hasOrigin, id, w.handlers[id]);
    } else {
      FoldReplaces(w, cs, master, frp, d, s, cfg, hasOrigin);
    }
  }

  /** In particular a listed child, whatever its place among the children. */
  lemma ChildGetsItsConfig(
    w: World, c: ClientId, master: ClientId -> Answer, frp: Frp, depth: nat,
    d: ClientId, s: ServerId, cfg: Config, hasOrigin: bool)
    requires NoOrphans(w) && Pull(w, c, master, frp, depth).Some?
    requires master(c).Client? && !master(c).stopped && d in master(c).children && d != c
    requires master(d) == Client(false, hasOrigin, [], Text(Parsed(cfg)), s) && Buildable(cfg, frp)
    ensures var v := Pull(w, c, master, frp, depth).value.world;
            Serves(v, (d, s), cfg) || ServesValidated(v, (d, s), cfg, frp)
  {
    var way := [c, d];
    assert Chain(way, master) && way[0] == c && way[|way| - 1] == d;
    PullDelivers(w, c, master, frp, depth, d, s, cfg, hasOrigin);
  }
}
