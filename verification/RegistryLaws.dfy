/** What every remote request keeps true of the tunnel registry. */
module RegistryLaws {
  import opened Registry

  // ------------------------------------------------------------------ no orphans

  ghost predicate Sound(w: World) {
    && (forall p :: p in w.reg ==> w.reg[p] < |w.handlers|)
    && (forall p, q :: p in w.reg && q in w.reg && w.reg[p] == w.reg[q] ==> p == q)
  }

  /** Every handler ever built is registered, under exactly one client and server, or has been told to stop. */
  ghost predicate NoOrphans(w: World) {
    Sound(w) && forall i :: 0 <= i < |w.handlers| ==> i in w.reg.Values || w.handlers[i].stopped
  }

  /** What can happen to the registry: requests, each taken as one operation, and handlers starting and ending on their own. */
  datatype Request =
    | PullRequest(client: ClientId, master: ClientId -> Answer, depth: nat)
    | PushRequest(client: ClientId, server: ServerId, loaded: Loaded)
    | StopRequest
    | Begins(handler: nat)
    | Ends(handler: nat)

  /** A pull is one operation only if its recursion ends, at some depth. */
  predicate Allowed(w: World, r: Request, frp: Frp) {
    match r
    case PullRequest(c, master, depth) => Pull(w, c, master, frp, depth).Some?
    case Begins(i) => i < |w.handlers|
    case Ends(i) => i < |w.handlers|
    case _ => true
  }

  function Serve(w: World, r: Request, frp: Frp): World
    requires Allowed(w, r, frp)
  {
    match r
    case PullRequest(c, master, depth) => Pull(w, c, master, frp, depth).value.world
    case PushRequest(c, s, loaded) => Push(w, c, s, loaded, frp).world
    case StopRequest => StopAndDeleteAll(w)
    case Begins(i) => w.(handlers := w.handlers[i := w.handlers[i].(running := true)])
    case Ends(i) => w.(handlers := w.handlers[i := w.handlers[i].(running := false)])
  }

  lemma {:induction false} RecreateKeeps(w: World, c: ClientId, s: ServerId, cfg: Config, frp: Frp)
    requires NoOrphans(w)
    ensures NoOrphans(Recreate(w, c, s, cfg, frp).world)
  {
    var w' := Recreate(w, c, s, cfg, frp).world;
    forall i | 0 <= i < |w'.handlers| ensures i in w'.reg.Values || w'.handlers[i].stopped {
      if i == |w.handlers| {
        assert w'.reg[(c, s)] == i;
      } else if i in w.reg.Values {
        var p :| p in w.reg && w.reg[p] == i;
        assert p != (c, s) ==> p in w'.reg && w'.reg[p] == i;
      }
    }
  }

  lemma ReconcileKeeps(w: World, c: ClientId, s: ServerId, cfg: Config, frp: Frp, pulled: bool)
    requires NoOrphans(w)
    ensures NoOrphans(Reconcile(w, c, s, cfg, frp, pulled).world)
  {
    RecreateKeeps(w, c, s, cfg, frp);
  }

  lemma LocalKeeps(w: World, c: ClientId, a: Answer, frp: Frp)
    requires NoOrphans(w)
    ensures NoOrphans(Local(w, c, a, frp).world)
  {
    if a.Client? && !a.stopped && a.children == [] && a.config.Text? && a.config.loaded.Parsed? {
      ReconcileKeeps(w, c, a.server, a.config.loaded.config, frp, true);
    }
  }

  lemma {:induction false} FoldKeeps(w: World, cs: seq<ClientId>, master: ClientId -> Answer, frp: Frp)
    requires NoOrphans(w)
    ensures NoOrphans(Fold(w, cs, master, frp))
    decreases |cs|
  {
    if cs == [] {
    } else {
      LocalKeeps(w, cs[0], master(cs[0]), frp);
      FoldKeeps(Local(w, cs[0], master(cs[0]), frp).world, cs[1..], master, frp);
    }
  }

  lemma ServeKeeps(w: World, r: Request, frp: Frp)
    requires NoOrphans(w) && Allowed(w, r, frp)
    ensures NoOrphans(Serve(w, r, frp))
  {
    match r
    case PullRequest(c, master, depth) =>
      PullIsFold(w, c, master, frp, depth);
      FoldKeeps(w, Reached(c, master, depth), master, frp);
    case PushRequest(c, s, loaded) =>
      if loaded.Parsed? { ReconcileKeeps(w, c, s, loaded.config, frp, false); }
    case _ =>
  }

  /** A run of the service: any sequence of requests, from an empty registry. */
  ghost predicate Service(ws: seq<World>, rs: seq<Request>, frp: Frp) {
    && |ws| == |rs| + 1 && ws[0] == World(map[], [])
    && forall i :: 0 <= i < |rs| ==> Allowed(ws[i], rs[i], frp) && ws[i + 1] == Serve(ws[i], rs[i], frp)
  }

  /** No tunnel is orphaned, whatever the sequence of requests. */
  lemma {:induction false} NeverOrphans(ws: seq<World>, rs: seq<Request>, frp: Frp, n: nat)
    requires Service(ws, rs, frp) && n < |ws|
    ensures NoOrphans(ws[n])
  {
    if n == 0 {
    } else {
      NeverOrphans(ws, rs, frp, n - 1);
      ServeKeeps(ws[n - 1], rs[n - 1], frp);
      assert ws[n - 1 + 1] == Serve(ws[n - 1], rs[n - 1], frp);
    }
  }

  /** Once everything is stopped and deleted, every handler ever built has been told to stop. */
  lemma StopLeavesNothing(w: World)
    requires NoOrphans(w)
    ensures StopAndDeleteAll(w).reg == map[] && |StopAndDeleteAll(w).handlers| == |w.handlers|
    ensures forall i :: 0 <= i < |w.handlers| ==> StopAndDeleteAll(w).handlers[i].stopped
  {
  }

  // ------------------------------------------------------------------ frames

  /** From w to v only client c was touched: other clients keep their handlers, and those handlers keep their state. */
  ghost predicate OnlyTouches(w: World, v: World, c: ClientId) {
    && |w.handlers| <= |v.handlers|
    && (forall p: (ClientId, ServerId) :: p.0 != c ==> (p in w.reg <==> p in v.reg))
    && (forall p: (ClientId, ServerId) :: p.0 != c && p in w.reg ==> w.reg[p] == v.reg[p])
    && (forall i :: 0 <= i < |w.handlers| && w.handlers[i] != v.handlers[i] ==>
          exists p :: p in w.reg && p.0 == c && w.reg[p] == i)
  }

  /** From w to v only the pair (c, s) was touched: no other pair came or went, and every other handler, registered or
      not, is as it was. */
  ghost predicate OnlyPair(w: World, v: World, c: ClientId, s: ServerId)
    requires Sound(w)
  {
    && |w.handlers| <= |v.handlers|
    && (forall d, t :: (d, t) in v.reg && (d, t) != (c, s) ==> (d, t) in w.reg)
    && (forall d, t :: (d, t) in w.reg && (d, t) != (c, s) ==>
          && (d, t) in v.reg && v.reg[(d, t)] == w.reg[(d, t)]
          && v.handlers[w.reg[(d, t)]] == w.handlers[w.reg[(d, t)]])
    && (forall i :: 0 <= i < |w.handlers| && !((c, s) in w.reg && w.reg[(c, s)] == i) ==> v.handlers[i] == w.handlers[i])
  }

  lemma {:induction false} RecreateTouchesPair(w: World, c: ClientId, s: ServerId, cfg: Config, frp: Frp)
    requires Sound(w)
    ensures OnlyPair(w, Recreate(w, c, s, cfg, frp).world, c, s)
  {
    var v := Recreate(w, c, s, cfg, frp).world;
    forall i | 0 <= i < |w.handlers| && !((c, s) in w.reg && w.reg[(c, s)] == i) ensures v.handlers[i] == w.handlers[i] {
    }
  }

  lemma ReconcileTouchesPair(w: World, c: ClientId, s: ServerId, cfg: Config, frp: Frp, pulled: bool)
    requires Sound(w)
    ensures OnlyPair(w, Reconcile(w, c, s, cfg, frp, pulled).world, c, s)
  {
    RecreateTouchesPair(w, c, s, cfg, frp);
  }

  lemma OnlyPairIsOnlyClient(w: World, v: World, c: ClientId, s: ServerId)
    requires Sound(w) && OnlyPair(w, v, c, s)
    ensures OnlyTouches(w, v, c)
  {
    forall p: (ClientId, ServerId) | p.0 != c
      ensures (p in w.reg <==> p in v.reg) && (p in w.reg ==> w.reg[p] == v.reg[p])
    {
      assert p == (p.0, p.1);
    }
  }

  lemma StopClientTouches(w: World, c: ClientId)
    requires Sound(w)
    ensures OnlyTouches(w, StopClient(w, c), c)
  {
  }

  /** Whatever the master answers for a client, its local step touches only entries under its own id, and only one pair
      unless the answer stops the client; a failed call or a configuration that does not load touches nothing, and a failed
      build only removes and stops what it was to replace. */
  lemma {:induction false} LocalTouchesOnlyItself(w: World, c: ClientId, a: Answer, frp: Frp)
    requires Sound(w)
    ensures OnlyTouches(w, Local(w, c, a, frp).world, c)
    ensures a.Client? && !a.stopped ==> OnlyPair(w, Local(w, c, a, frp).world, c, a.server)
    ensures a.RpcError? || (a.Client? && !a.stopped && a.config.Text? && a.config.loaded.Rejected?) ==>
              Local(w, c, a, frp).world == w
    ensures !Local(w, c, a, frp).ok ==>
              Local(w, c, a, frp).world.reg.Keys <= w.reg.Keys && |Local(w, c, a, frp).world.handlers| == |w.handlers|
  {
    if a.Client? && a.stopped {
      StopClientTouches(w, c);
    } else if a.Client? {
      if a.children == [] && a.config.Text? && a.config.loaded.Parsed? {
        ReconcileTouchesPair(w, c, a.server, a.config.loaded.config, frp, true);
      }
      OnlyPairIsOnlyClient(w, Local(w, c, a, frp).world, c, a.server);
    }
  }

  /** A pushed update touches one pair only. */
  lemma PushTouchesOnlyItself(w: World, c: ClientId, s: ServerId, loaded: Loaded, frp: Frp)
    requires Sound(w)
    ensures OnlyPair(w, Push(w, c, s, loaded, frp).world, c, s)
    ensures loaded.Rejected? ==> Push(w, c, s, loaded, frp).world == w
  {
    if loaded.Parsed? {
      ReconcileTouchesPair(w, c, s, loaded.config, frp, false);
    }
  }

  // ------------------------------------------------------------------ convergence and stability

  function Leaf(cfg: Config, s: ServerId, hasOrigin: bool): Answer {
    Client(false, hasOrigin, [], Text(Parsed(cfg)), s)
  }

  /** The handler under p serves configuration cfg. */
  ghost predicate Serves(w: World, p: (ClientId, ServerId), cfg: Config) {
    && p in w.reg && w.reg[p] < |w.handlers|
    && var h := w.handlers[w.reg[p]];
       h.common == cfg.common && h.proxies == ByName(cfg.proxies) && h.visitors == ByName(cfg.visitors) &&
       h.serving == (cfg.proxies, cfg.visitors)
  }

  /** It serves what is left of cfg without the tunnels that frp does not accept. */
  ghost predicate ServesValidated(w: World, p: (ClientId, ServerId), cfg: Config, frp: Frp) {
    exists left :: Validated(cfg, frp, left) && Serves(w, p, left)
  }

  lemma ValidIsServed(w: World, p: (ClientId, ServerId), cfg: Config, frp: Frp)
    requires Serves(w, p, OnlyValid(cfg, frp))
    ensures ServesValidated(w, p, cfg, frp)
  {
    OnlyValidValidates(cfg, frp);
  }

  /** The leaf pull kept the handler that was registered. */
  predicate Kept(w: World, p: (ClientId, ServerId), cfg: Config) {
    p in w.reg && w.reg[p] < |w.handlers| && w.handlers[w.reg[p]].common == cfg.common && w.handlers[w.reg[p]].running
  }

  lemma {:induction false} LeafOutcome(w: World, c: ClientId, s: ServerId, cfg: Config, hasOrigin: bool, frp: Frp)
    requires Sound(w)
    ensures var r := Local(w, c, Leaf(cfg, s, hasOrigin), frp);
            && (r.ok <==> Kept(w, (c, s), cfg) || frp.builds(OnlyValid(cfg, frp)))
            && (r.ok ==> Serves(r.world, (c, s), if Kept(w, (c, s), cfg) then cfg else OnlyValid(cfg, frp)))
            && (r.ok && Kept(w, (c, s), cfg) ==> r.world.reg == w.reg)
            && (r.ok && !Kept(w, (c, s), cfg) ==>
                  r.world.reg == w.reg[(c, s) := |w.handlers|] && r.world.handlers[|w.handlers|].launches == 1)
            && (!r.ok ==> r.world.reg == w.reg - {(c, s)})
  {
  }

  lemma {:induction false} LeafStopsDisplaced(w: World, c: ClientId, s: ServerId, cfg: Config, hasOrigin: bool, frp: Frp)
    requires Sound(w) && (c, s) in w.reg && !Kept(w, (c, s), cfg)
    ensures var v := Local(w, c, Leaf(cfg, s, hasOrigin), frp).world;
            w.reg[(c, s)] < |v.handlers| && v.handlers[w.reg[(c, s)]] == Halted(w.handlers[w.reg[(c, s)]])
  {
  }

  /** A leaf pull that succeeds leaves the delivered configuration in place: on the same handler, with every delivered
      tunnel, or on a new one, launched, with the valid tunnels only. It fails exactly when a new one cannot be built. A
      handler that is not kept is stopped in either case, and nothing but this pair is touched. */
  lemma {:induction false} LeafConverges(w: World, c: ClientId, s: ServerId, cfg: Config, hasOrigin: bool, frp: Frp, r: Outcome)
    requires Sound(w) && r == Local(w, c, Leaf(cfg, s, hasOrigin), frp)
    ensures r.ok <==> Kept(w, (c, s), cfg) || Buildable(cfg, frp)
    ensures r.ok ==> Serves(r.world, (c, s), if Kept(w, (c, s), cfg) then cfg else OnlyValid(cfg, frp))
    ensures r.ok && !Kept(w, (c, s), cfg) ==> ServesValidated(r.world, (c, s), cfg, frp)
    ensures r.ok && Kept(w, (c, s), cfg) ==> r.world.reg == w.reg
    ensures r.ok && !Kept(w, (c, s), cfg) ==>
              && r.world.reg == w.reg[(c, s) := |w.handlers|]
              && |w.handlers| < |r.world.handlers| && r.world.handlers[|w.handlers|].launches == 1
    ensures !r.ok ==> r.world.reg == w.reg - {(c, s)}
    ensures (c, s) in w.reg && !Kept(w, (c, s), cfg) ==>
              w.reg[(c, s)] < |r.world.handlers| && r.world.handlers[w.reg[(c, s)]] == Halted(w.handlers[w.reg[(c, s)]])
    ensures OnlyPair(w, r.world, c, s)
  {
    LeafOutcome(w, c, s, cfg, hasOrigin, frp);
    LocalTouchesOnlyItself(w, c, Leaf(cfg, s, hasOrigin), frp);
    BuildableIff(cfg, frp);
    if r.ok && !Kept(w, (c, s), cfg) {
      ValidIsServed(r.world, (c, s), cfg, frp);
    }
    if (c, s) in w.reg && !Kept(w, (c, s), cfg) {
      LeafStopsDisplaced(w, c, s, cfg, hasOrigin, frp);
    }
  }

  /** A pushed update keeps any handler with the same common part. */
  predicate PushKeeps(w: World, p: (ClientId, ServerId), cfg: Config) {
    p in w.reg && w.reg[p] < |w.handlers| && w.handlers[w.reg[p]].common == cfg.common
  }

  lemma {:induction false} PushOntoKept(w: World, c: ClientId, s: ServerId, cfg: Config, frp: Frp)
    requires Sound(w) && PushKeeps(w, (c, s), cfg)
    ensures var r := Push(w, c, s, Parsed(cfg), frp); r.ok && r.world.reg == w.reg && Serves(r.world, (c, s), cfg)
  {
  }

  lemma {:induction false} RecreateOutcome(w: World, c: ClientId, s: ServerId, cfg: Config, frp: Frp)
    requires Sound(w)
    ensures var r := Recreate(w, c, s, cfg, frp);
            && (r.ok <==> frp.builds(OnlyValid(cfg, frp)))
            && (r.ok ==> Serves(r.world, (c, s), OnlyValid(cfg, frp)) && r.world.reg == w.reg[(c, s) := |w.handlers|])
            && (!r.ok ==> r.world.reg == w.reg - {(c, s)})
  {
    var r := Recreate(w, c, s, cfg, frp);
    if r.ok {
      assert r.world.reg == w.reg[(c, s) := |w.handlers|];
      assert r.world.handlers[|w.handlers|] == Built(OnlyValid(cfg, frp));
    }
  }

  lemma {:induction false} PushOutcome(w: World, c: ClientId, s: ServerId, cfg: Config, frp: Frp)
    requires Sound(w)
    ensures var r := Push(w, c, s, Parsed(cfg), frp);
            var keeps := PushKeeps(w, (c, s), cfg);
            && (r.ok <==> keeps || frp.builds(OnlyValid(cfg, frp)))
            && (r.ok ==> Serves(r.world, (c, s), if keeps then cfg else OnlyValid(cfg, frp)))
            && (r.ok ==> r.world.reg == if keeps then w.reg else w.reg[(c, s) := |w.handlers|])
            && (!r.ok ==> r.world.reg == w.reg - {(c, s)})
  {
    if PushKeeps(w, (c, s), cfg) {
      PushOntoKept(w, c, s, cfg, frp);
    } else {
      assert Push(w, c, s, Parsed(cfg), frp) == Recreate(w, c, s, cfg, frp);
      RecreateOutcome(w, c, s, cfg, frp);
    }
  }

  lemma {:induction false} PushStopsDisplaced(w: World, c: ClientId, s: ServerId, cfg: Config, frp: Frp)
    requires Sound(w) && (c, s) in w.reg && !PushKeeps(w, (c, s), cfg)
    ensures var v := Push(w, c, s, Parsed(cfg), frp).world;
            w.reg[(c, s)] < |v.handlers| && v.handlers[w.reg[(c, s)]] == Halted(w.handlers[w.reg[(c, s)]])
  {
  }

  /** A pushed update that succeeds does the same, except that a handler with the same common part is kept even when it is
      not running. */
  lemma {:induction false} PushConverges(w: World, c: ClientId, s: ServerId, cfg: Config, frp: Frp, r: Outcome)
    requires Sound(w) && r == Push(w, c, s, Parsed(cfg), frp)
    ensures r.ok <==> PushKeeps(w, (c, s), cfg) || Buildable(cfg, frp)
    ensures r.ok ==> Serves(r.world, (c, s), if PushKeeps(w, (c, s), cfg) then cfg else OnlyValid(cfg, frp))
    ensures r.ok && !PushKeeps(w, (c, s), cfg) ==> ServesValidated(r.world, (c, s), cfg, frp)
    ensures r.ok ==> r.world.reg == if PushKeeps(w, (c, s), cfg) then w.reg else w.reg[(c, s) := |w.handlers|]
    ensures !r.ok ==> r.world.reg == w.reg - {(c, s)}
    ensures (c, s) in w.reg && !PushKeeps(w, (c, s), cfg) ==>
              w.reg[(c, s)] < |r.world.handlers| && r.world.handlers[w.reg[(c, s)]] == Halted(w.handlers[w.reg[(c, s)]])
    ensures OnlyPair(w, r.world, c, s)
  {
    PushOutcome(w, c, s, cfg, frp);
    PushTouchesOnlyItself(w, c, s, Parsed(cfg), frp);
    BuildableIff(cfg, frp);
    if r.ok && !PushKeeps(w, (c, s), cfg) {
      ValidIsServed(r.world, (c, s), cfg, frp);
    }
    if (c, s) in w.reg && !PushKeeps(w, (c, s), cfg) {
      PushStopsDisplaced(w, c, s, cfg, frp);
    }
  }

  /** And what it keeps may be dead. After a push that succeeds, the registered handler is stopped exactly when it was kept
      and had been stopped before; it is running exactly when it was kept and was running; and its run is launched by the
      push exactly when it was not kept. */
  lemma {:induction false} PushMayKeepStopped(w: World, c: ClientId, s: ServerId, cfg: Config, frp: Frp)
    requires Sound(w) && Push(w, c, s, Parsed(cfg), frp).ok
    ensures var v := Push(w, c, s, Parsed(cfg), frp).world;
            var keeps := PushKeeps(w, (c, s), cfg);
            && (c, s) in v.reg && v.reg[(c, s)] < |v.handlers|
            && var h := v.handlers[v.reg[(c, s)]];
               && (h.stopped <==> keeps && w.handlers[w.reg[(c, s)]].stopped)
               && (h.running <==> keeps && w.handlers[w.reg[(c, s)]].running)
               && h.launches == if keeps then w.handlers[w.reg[(c, s)]].launches else 1
  {
    PushOutcome(w, c, s, cfg, frp);
  }

  /** A leaf pull for one server leaves alone what is registered for the client under other servers: some other server has
      a handler afterwards exactly when one had before. */
  lemma OtherServersStay(w: World, c: ClientId, s: ServerId, cfg: Config, hasOrigin: bool, frp: Frp)
    requires Sound(w)
    ensures var v := Local(w, c, Leaf(cfg, s, hasOrigin), frp).world;
            (exists t :: t != s && (c, t) in v.reg) <==> (exists t :: t != s && (c, t) in w.reg)
  {
    ReconcileTouchesPair(w, c, s, cfg, frp, true);
    var v := Local(w, c, Leaf(cfg, s, hasOrigin), frp).world;
    assert forall t :: t != s ==> ((c, t) in v.reg <==> (c, t) in w.reg);
  }

  /** A client that the master marks stopped has all its handlers stopped, and keeps them registered. */
  lemma StoppedAnswerStops(w: World, c: ClientId, a: Answer, frp: Frp)
    requires Sound(w) && a.Client? && a.stopped
    ensures var r := Local(w, c, a, frp);
            && r.ok && r.world.reg == w.reg && |r.world.handlers| == |w.handlers|
            && (forall s :: (c, s) in w.reg ==> r.world.handlers[w.reg[(c, s)]] == Halted(w.handlers[w.reg[(c, s)]]))
            && (forall d, s :: (d, s) in w.reg && d != c ==> r.world.handlers[w.reg[(d, s)]] == w.handlers[w.reg[(d, s)]])
  {
    forall d, s | (d, s) in w.reg && d != c
      ensures w.reg[(d, s)] !in (set p | p in w.reg && p.0 == c :: w.reg[p])
    {
    }
  }

  /** But a handler that was told to stop and has not ended yet still counts as running, and such a pull keeps it: this is
      exactly when a pull that succeeds leaves a stopped handler behind. */
  lemma LeafMayKeepStopped(w: World, c: ClientId, s: ServerId, cfg: Config, hasOrigin: bool, frp: Frp)
    requires Sound(w) && Local(w, c, Leaf(cfg, s, hasOrigin), frp).ok
    ensures var v := Local(w, c, Leaf(cfg, s, hasOrigin), frp).world;
            && (c, s) in v.reg && v.reg[(c, s)] < |v.handlers|
            && (v.handlers[v.reg[(c, s)]].stopped <==> Kept(w, (c, s), cfg) && w.handlers[w.reg[(c, s)]].stopped)
  {
    LeafOutcome(w, c, s, cfg, hasOrigin, frp);
  }

  /** While the handler stays running, identical pulls keep it, and from the first update on they change nothing at all. */
  lemma LeafIsStable(w: World, c: ClientId, s: ServerId, cfg: Config, hasOrigin: bool, frp: Frp)
    requires Sound(w) && Kept(w, (c, s), cfg)
    ensures var v := Local(w, c, Leaf(cfg, s, hasOrigin), frp).world;
            v.reg == w.reg && Kept(v, (c, s), cfg) && Local(v, c, Leaf(cfg, s, hasOrigin), frp).world == v
  {
    var v := Local(w, c, Leaf(cfg, s, hasOrigin), frp).world;
    var id := w.reg[(c, s)];
    assert Updated(v.handlers[id], cfg) == v.handlers[id];
    assert v.handlers[id := v.handlers[id]] == v.handlers;
  }

  /** From w to v the pair keeps its handler, and that handler its state. */
  ghost predicate Spares(w: World, v: World, c: ClientId, s: ServerId) {
    && (c, s) in w.reg && (c, s) in v.reg && v.reg[(c, s)] == w.reg[(c, s)]
    && w.reg[(c, s)] < |w.handlers| && w.reg[(c, s)] < |v.handlers|
    && v.handlers[w.reg[(c, s)]] == w.handlers[w.reg[(c, s)]]
  }

  /** An answer that acts on the client's pair with server s: it stops the client, or delivers a configuration for s. */
  predicate Concerns(a: Answer, s: ServerId) {
    a.Client? && (a.stopped || (a.children == [] && a.config.Text? && a.config.loaded.Parsed? && a.server == s))
  }

  lemma {:induction false} OtherClientSpares(w: World, d: ClientId, a: Answer, frp: Frp, c: ClientId, s: ServerId)
    requires Sound(w) && (c, s) in w.reg && d != c
    ensures Spares(w, Local(w, d, a, frp).world, c, s)
  {
    LocalTouchesOnlyItself(w, d, a, frp);
    var p := (c, s);
    assert p.0 != d && p in w.reg;
  }

  lemma {:induction false} UnconcernedSpares(w: World, a: Answer, frp: Frp, c: ClientId, s: ServerId)
    requires Sound(w) && (c, s) in w.reg && !Concerns(a, s)
    ensures Spares(w, Local(w, c, a, frp).world, c, s)
  {
    LocalTouchesOnlyItself(w, c, a, frp);
  }

  /** A local step of another client, or with an answer that does not concern the pair, spares it. */
  lemma {:induction false} LocalSpares(w: World, d: ClientId, a: Answer, frp: Frp, c: ClientId, s: ServerId)
    requires Sound(w) && (c, s) in w.reg && (d != c || !Concerns(a, s))
    ensures Spares(w, Local(w, d, a, frp).world, c, s)
  {
    if d != c {
      OtherClientSpares(w, d, a, frp, c, s);
    } else {
      UnconcernedSpares(w, a, frp, c, s);
    }
  }

  lemma {:induction false} FoldSpares(
    w: World, cs: seq<ClientId>, master: ClientId -> Answer, frp: Frp, c: ClientId, s: ServerId)
    requires NoOrphans(w) && (c, s) in w.reg && (c !in cs || !Concerns(master(c), s))
    ensures Spares(w, Fold(w, cs, master, frp), c, s)
    decreases |cs|
  {
    if cs == [] {
    } else {
      LocalSpares(w, cs[0], master(cs[0]), frp, c, s);
      LocalKeeps(w, cs[0], master(cs[0]), frp);
      FoldSpares(Local(w, cs[0], master(cs[0]), frp).world, cs[1..], master, frp, c, s);
    }
  }

  /** Which requests spare a pair: pulls that do not reach its client, or whose answer for it does not concern the pair,
      pushes for other pairs, and runs of other handlers beginning or ending. */
  ghost predicate Elsewhere(w: World, r: Request, c: ClientId, s: ServerId) {
    match r
    case PullRequest(d, master, depth) => c !in Reached(d, master, depth) || !Concerns(master(c), s)
    case PushRequest(d, t, _) => (d, t) != (c, s)
    case StopRequest => false
    case Begins(i) => (c, s) in w.reg && i != w.reg[(c, s)]
    case Ends(i) => (c, s) in w.reg && i != w.reg[(c, s)]
  }

  lemma ElsewhereSpares(w: World, r: Request, frp: Frp, c: ClientId, s: ServerId)
    requires NoOrphans(w) && Allowed(w, r, frp) && (c, s) in w.reg && Elsewhere(w, r, c, s)
    ensures Spares(w, Serve(w, r, frp), c, s)
  {
    match r
    case PullRequest(d, master, depth) =>
      PullIsFold(w, d, master, frp, depth);
      FoldSpares(w, Reached(d, master, depth), master, frp, c, s);
    case PushRequest(d, t, loaded) => PushTouchesOnlyItself(w, d, t, loaded, frp);
    case _ =>
  }

  /** The pair holds handler id, whose state is h. */
  ghost predicate Holds(w: World, c: ClientId, s: ServerId, id: nat, h: HandlerState) {
    (c, s) in w.reg && w.reg[(c, s)] == id < |w.handlers| && w.handlers[id] == h
  }

  /** Where a pull that delivers cfg finds the pair's handler running with the same common part, it leaves it updated if it
      reaches the client, and as it was if not. */
  lemma {:induction false} FoldUpdates(
    w: World, cs: seq<ClientId>, master: ClientId -> Answer, frp: Frp, c: ClientId, s: ServerId, cfg: Config, hasOrigin: bool,
    id: nat, h: HandlerState)
    requires NoOrphans(w) && master(c) == Leaf(cfg, s, hasOrigin)
    requires Holds(w, c, s, id, h) && h.common == cfg.common && h.running
    ensures Holds(Fold(w, cs, master, frp), c, s, id, if c in cs then Updated(h, cfg) else h)
    decreases |cs|
  {
    if cs == [] {
    } else {
      var v := Local(w, cs[0], master(cs[0]), frp).world;
      LocalKeeps(w, cs[0], master(cs[0]), frp);
      if cs[0] == c {
        FoldUpdates(v, cs[1..], master, frp, c, s, cfg, hasOrigin, id, Updated(h, cfg));
        assert Updated(Updated(h, cfg), cfg) == Updated(h, cfg);
      } else {
        LocalSpares(w, cs[0], master(cs[0]), frp, c, s);
        FoldUpdates(v, cs[1..], master, frp, c, s, cfg, hasOrigin, id, h);
      }
    }
  }

  /** A pull in which the master delivers the same configuration for the pair. It may start at the client or at another that
      leads to it, as children are pulled. */
  ghost predicate SamePull(r: Request, c: ClientId, s: ServerId, cfg: Config) {
    r.PullRequest? && exists hasOrigin :: r.master(c) == Leaf(cfg, s, hasOrigin)
  }

  lemma SamePullUpdates(
    w: World, r: Request, frp: Frp, c: ClientId, s: ServerId, cfg: Config, id: nat, h: HandlerState)
    requires NoOrphans(w) && Allowed(w, r, frp) && SamePull(r, c, s, cfg)
    requires Holds(w, c, s, id, h) && h.common == cfg.common && h.running
    ensures var reached := c in Reached(r.client, r.master, r.depth);
            Holds(Serve(w, r, frp), c, s, id, if reached then Updated(h, cfg) else h)
  {
    var hasOrigin :| r.master(c) == Leaf(cfg, s, hasOrigin);
    PullIsFold(w, r.client, r.master, frp, r.depth);
    FoldUpdates(w, Reached(r.client, r.master, r.depth), r.master, frp, c, s, cfg, hasOrigin, id, h);
  }

  lemma SettledStep(
    w: World, r: Request, frp: Frp, c: ClientId, s: ServerId, cfg: Config, id: nat, h: HandlerState)
    requires NoOrphans(w) && Allowed(w, r, frp) && Holds(w, c, s, id, h)
    requires h.common == cfg.common && h.running && Updated(h, cfg) == h
    requires SamePull(r, c, s, cfg) || Elsewhere(w, r, c, s)
    ensures Holds(Serve(w, r, frp), c, s, id, h)
  {
    if SamePull(r, c, s, cfg) {
      SamePullUpdates(w, r, frp, c, s, cfg, id, h);
    } else {
      ElsewhereSpares(w, r, frp, c, s);
    }
  }

  lemma {:induction false} SettledRun(
    ws: seq<World>, rs: seq<Request>, frp: Frp, m: nat, n: nat, c: ClientId, s: ServerId, cfg: Config, id: nat, h: HandlerState)
    requires Service(ws, rs, frp) && m <= n < |ws| && Holds(ws[m], c, s, id, h)
    requires h.common == cfg.common && h.running && Updated(h, cfg) == h
    requires forall i :: m <= i < n ==> SamePull(rs[i], c, s, cfg) || Elsewhere(ws[i], rs[i], c, s)
    ensures Holds(ws[n], c, s, id, h)
    decreases n - m
  {
    if m == n {
    } else {
      NeverOrphans(ws, rs, frp, m);
      SettledStep(ws[m], rs[m], frp, c, s, cfg, id, h);
      SettledRun(ws, rs, frp, m + 1, n, c, s, cfg, id, h);
    }
  }

  /** Stability over a run: from a pull that reaches the client and keeps its running handler on, for as long as only pulls
      that deliver the same for it, through whichever client they come, and requests elsewhere happen, the pair keeps that
      very handler, as the first pull left it. */
  lemma PullsSettle(
    ws: seq<World>, rs: seq<Request>, frp: Frp, m: nat, n: nat, c: ClientId, s: ServerId, cfg: Config)
    requires Service(ws, rs, frp) && m < n < |ws|
    requires Kept(ws[m], (c, s), cfg) && SamePull(rs[m], c, s, cfg) && c in Reached(rs[m].client, rs[m].master, rs[m].depth)
    requires forall i :: m < i < n ==> SamePull(rs[i], c, s, cfg) || Elsewhere(ws[i], rs[i], c, s)
    ensures var id := ws[m].reg[(c, s)]; Holds(ws[n], c, s, id, Updated(ws[m].handlers[id], cfg))
  {
    var id := ws[m].reg[(c, s)];
    NeverOrphans(ws, rs, frp, m);
    SamePullUpdates(ws[m], rs[m], frp, c, s, cfg, id, ws[m].handlers[id]);
    SettledRun(ws, rs, frp, m + 1, n, c, s, cfg, id, Updated(ws[m].handlers[id], cfg));
  }

  // ------------------------------------------------------------------ the pass over expired children

  /** The pass that is meant to remove expired children: it walks the listed ids that are not registered. */
  function Prune(w: World, listed: seq<ClientId>, registered: set<ClientId>): World
    decreases |listed|
  {
    if listed == [] then w
    else if listed[0] in registered then Prune(w, listed[1..], registered)
    else Prune(DeleteClient(StopClient(w, listed[0]), listed[0]), listed[1..], registered)
  }

  /** As written it changes nothing, whatever the master lists. */
  lemma {:induction false} PruneIsIdentity(w: World, listed: seq<ClientId>, registered: set<ClientId>)
    requires forall p :: p in w.reg ==> p.0 in registered
    ensures Prune(w, listed, registered) == w
    decreases |listed|
  {
    if listed == [] {
    } else {
      if listed[0] !in registered {
        var v := DeleteClient(StopClient(w, listed[0]), listed[0]);
        assert v.reg == w.reg;
        assert v.handlers == w.handlers;
      }
      PruneIsIdentity(w, listed[1..], registered);
    }
  }

  /** So what it was meant to bring about, that only listed clients stay registered, it brings about exactly when that held
      already. */
  lemma PruneMeetsIntent(w: World, listed: seq<ClientId>, registered: set<ClientId>)
    requires forall p :: p in w.reg ==> p.0 in registered
    ensures (forall c, s :: (c, s) in Prune(w, listed, registered).reg ==> c in listed) <==>
            (forall c, s :: (c, s) in w.reg ==> c in listed)
  {
    PruneIsIdentity(w, listed, registered);
  }

  /** The pass with the other half of the difference: it walks the registered ids that are not listed. */
  function PruneUnlisted(w: World, registered: seq<ClientId>, listed: seq<ClientId>): World
    decreases |registered|
  {
    if registered == [] then w
    else if registered[0] in listed then PruneUnlisted(w, registered[1..], listed)
    else PruneUnlisted(DeleteClient(StopClient(w, registered[0]), registered[0]), registered[1..], listed)
  }

  lemma DeleteClientDrops(w: World, x: ClientId)
    ensures var v := DeleteClient(StopClient(w, x), x);
            && (forall c, s :: (c, s) in v.reg <==> (c, s) in w.reg && c != x)
            && (forall c, s :: (c, s) in v.reg ==> v.reg[(c, s)] == w.reg[(c, s)])
            && |v.handlers| == |w.handlers|
            && (forall i :: 0 <= i < |w.handlers| && w.handlers[i].stopped ==> v.handlers[i].stopped)
            && (forall s :: (x, s) in w.reg && w.reg[(x, s)] < |w.handlers| ==> v.handlers[w.reg[(x, s)]].stopped)
  {
  }

  /** That variant does what was meant: of the clients it walks, exactly the listed ones keep their entries, and what it
      removes has been stopped. A client without children lists none, and then it would remove everything. */
  lemma {:induction false} UnlistedArePruned(w: World, registered: seq<ClientId>, listed: seq<ClientId>)
    requires Sound(w)
    ensures var v := PruneUnlisted(w, registered, listed);
            && (forall c, s :: (c, s) in v.reg <==> (c, s) in w.reg && (c in listed || c !in registered))
            && (forall c, s :: (c, s) in v.reg ==> v.reg[(c, s)] == w.reg[(c, s)])
            && |v.handlers| == |w.handlers|
            && (forall i :: 0 <= i < |w.handlers| && w.handlers[i].stopped ==> v.handlers[i].stopped)
            && (forall c, s :: (c, s) in w.reg && (c, s) !in v.reg ==> v.handlers[w.reg[(c, s)]].stopped)
    decreases |registered|
  {
    if registered == [] {
    } else {
      var x := registered[0];
      if x in listed {
        UnlistedArePruned(w, registered[1..], listed);
      } else {
        var w1 := DeleteClient(StopClient(w, x), x);
        DeleteClientDrops(w, x);
        assert Sound(w1);
        UnlistedArePruned(w1, registered[1..], listed);
      }
    }
  }
}
