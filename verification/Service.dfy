/** The service's requests as they run, on the heap of nested maps and handlers; each is proved to do what the
    registry module says it does. */
module Services {
  import opened Options
  import opened Registry
  import opened RegistryLaws
  import opened Controllers

  lemma RegisteredAndLaunched(hs: seq<HandlerState>, cfg: Config)
    ensures (hs + [Built(cfg).(launches := 0)])[|hs| := Launched(Built(cfg).(launches := 0))] == hs + [Built(cfg)]
  {
  }

  /** The numbers in reg stand for the handlers in flat. */
  ghost predicate Means(
    reg: map<(ClientId, ServerId), nat>, flat: map<(ClientId, ServerId), ClientHandler>, built: seq<ClientHandler>)
  {
    && (forall c, s :: (c, s) in reg <==> (c, s) in flat)
    && (forall c, s :: (c, s) in reg ==> reg[(c, s)] < |built| && built[reg[(c, s)]] == flat[(c, s)])
  }

  lemma MeansOneMore(
    reg: map<(ClientId, ServerId), nat>, flat: map<(ClientId, ServerId), ClientHandler>, built: seq<ClientHandler>,
    c: ClientId, s: ServerId, h: ClientHandler)
    requires Means(reg, flat, built)
    ensures Means(reg[(c, s) := |built|], flat[(c, s) := h], built + [h])
  {
  }

  class Service {
    const frp: Frp
    const shouldRun: bool
    var controller: Controller
    ghost var built: seq<ClientHandler>  // every handler ever built, in order
    ghost var world: World               // what the heap means
    ghost var Repr: set<object>          // the objects that belong to the service

    /** The objects in repr include the controller's and, apart from those, the handlers hs, whose states are as given. */
    ghost predicate Owns(repr: set<object>, hs: seq<ClientHandler>, states: seq<HandlerState>)
      reads this, repr
    {
      && this in repr && controller in repr && controller.Repr <= repr && this !in controller.Repr
      && |hs| == |states|
      && (forall i :: 0 <= i < |hs| ==> hs[i] in repr && hs[i] !in controller.Repr)
      && (forall i :: 0 <= i < |hs| ==> hs[i].id == i && hs[i].state == states[i])
    }

    /** The heap holds what world says: its handlers, and the registry. */
    ghost predicate Valid()
      reads this, Repr
    {
      Owns(Repr, built, world.handlers) && controller.Valid() && Means(world.reg, controller.flat, built)
    }

    lemma OwnsOneMore(repr: set<object>, hs: seq<ClientHandler>, states: seq<HandlerState>, h: ClientHandler)
      requires Owns(repr, hs, states) && h !in controller.Repr && h.id == |hs|
      ensures Owns(repr + {h}, hs + [h], states + [h.state])
    {
    }

    /** Builds a handler for the valid tunnels of a configuration, unless frp refuses what is left of it. */
    method NewClientHandler(cfg: Config, ghost id: nat) returns (h: Option<ClientHandler>)
      ensures h.Some? <==> Buildable(cfg, frp)
      ensures h.Some? <==> frp.builds(OnlyValid(cfg, frp))
      ensures h.Some? ==> exists left :: Validated(cfg, frp, left) && h.value.state == HandlerState(
                  cfg.common, ByName(left.proxies), ByName(left.visitors), (left.proxies, left.visitors), false, false, 0)
      ensures h.Some? ==> fresh(h.value) && h.value.id == id && h.value.state == Built(OnlyValid(cfg, frp)).(launches := 0)
    {
      BuildableIff(cfg, frp);
      OnlyValidValidates(cfg, frp);
      var valid := OnlyValid(cfg, frp);
      if !frp.builds(valid) {
        return None;
      }
      var handler := new ClientHandler(id, valid);
      return Some(handler);
    }

    constructor (frp: Frp, shouldRun: bool)
      ensures Valid() && fresh(Repr) && world == World(map[], []) && this.frp == frp && this.shouldRun == shouldRun
    {
      this.frp, this.shouldRun := frp, shouldRun;
      this.built, this.world := [], World(map[], []);
      controller := new Controller();
      new;
      Repr := {this, controller} + controller.Repr;
    }

    method StopHandler(h: ClientHandler)
      requires Valid() && h in built
      modifies this`world, h
      ensures Valid() && world == old(world).(handlers := StopAmong(old(world).handlers, {h.id}))
    {
      h.Stop();
      world := world.(handlers := StopAmong(world.handlers, {h.id}));
    }

    /** The run of a handler gets in, or is over. */
    method RunBegins(h: ClientHandler)
      requires Valid() && h in built
      modifies this`world, h
      ensures Valid() && Allowed(old(world), Begins(h.id), frp) && world == Serve(old(world), Begins(h.id), frp)
    {
      h.SetRunning(true);
      world := world.(handlers := world.handlers[h.id := h.state]);
    }

    method RunEnds(h: ClientHandler)
      requires Valid() && h in built
      modifies this`world, h
      ensures Valid() && Allowed(old(world), Ends(h.id), frp) && world == Serve(old(world), Ends(h.id), frp)
    {
      h.SetRunning(false);
      world := world.(handlers := world.handlers[h.id := h.state]);
    }

    /** Takes a handler that was stopped out of the registry. */
    method DeleteHandler(c: ClientId, s: ServerId)
      requires Valid() && (c, s) in world.reg && controller.flat[(c, s)].state.stopped
      modifies this`world, controller`flat, controller.InnerOf(c), controller.Under(c, s)
      ensures Valid() && world == World(old(world).reg - {(c, s)}, old(world).handlers)
    {
      controller.Delete(c, s);
      assert forall i :: 0 <= i < |built| ==> built[i].state == world.handlers[i];
      world := World(world.reg - {(c, s)}, world.handlers);
    }

    /** Stops and removes the handler of a client and a server, if there is one. */
    method RemoveHandler(c: ClientId, s: ServerId)
      requires Valid()
      modifies this`world, controller`flat, controller.InnerOf(c), controller.Under(c, s)
      ensures Valid()
      ensures world == if (c, s) in old(world).reg
                       then World(old(world).reg - {(c, s)}, StopAmong(old(world).handlers, {old(world).reg[(c, s)]}))
                       else old(world)
    {
      var existing := controller.Get(c, s);
      if existing.Some? {
        StopHandler(existing.value);
        DeleteHandler(c, s);
      }
    }

    /** Adding a handler in a free place leaves the states of all handlers alone. */
    method AddHandler(c: ClientId, s: ServerId, h: ClientHandler)
      requires Valid() && (c, s) !in world.reg && h !in controller.Repr && h !in built
      modifies controller, controller.clients, controller.InnerOf(c)
      ensures controller.Valid() && controller.flat == old(controller.flat)[(c, s) := h] && h !in controller.Repr
      ensures fresh(controller.Repr - old(controller.Repr)) && Owns(Repr + controller.Repr, built, world.handlers)
    {
      assert controller.Under(c, s) == {};
      controller.Add(c, s, h);
    }

    /** Registers a new handler in a place that is free. */
    method RegisterHandler(c: ClientId, s: ServerId, h: ClientHandler)
      requires Valid() && (c, s) !in world.reg && h !in built && h !in controller.Repr && h.id == |built|
      modifies this`world, this`built, this`Repr, controller, controller.clients, controller.InnerOf(c)
      ensures Valid() && built == old(built) + [h] && fresh(Repr - old(Repr) - {h}) && controller.Under(c, s) == {h}
      ensures world == World(old(world).reg[(c, s) := |old(world).handlers|], old(world).handlers + [h.state])
    {
      MeansOneMore(world.reg, controller.flat, built, c, s, h);
      AddHandler(c, s, h);
      ghost var owned := Repr + controller.Repr;
      OwnsOneMore(owned, built, world.handlers, h);
      built, Repr := built + [h], owned + {h};
      world := World(world.reg[(c, s) := |world.handlers|], world.handlers + [h.state]);
    }

    /** Launches a registered handler. */
    method LaunchHandler(c: ClientId, s: ServerId)
      requires Valid() && (c, s) in world.reg
      modifies this`world, controller.Under(c, s)
      ensures Valid()
      ensures var id := old(world).reg[(c, s)];
              && id < |old(world).handlers|
              && world == old(world).(handlers := old(world).handlers[id := Launched(old(world).handlers[id])])
    {
      ghost var id := world.reg[(c, s)];
      assert controller.Under(c, s) == {built[id]};
      controller.Run(c, s);
      world := world.(handlers := world.handlers[id := Launched(world.handlers[id])]);
    }

    method InstallHandler(c: ClientId, s: ServerId, h: ClientHandler, ghost cfg: Config)
      requires Valid() && (c, s) !in world.reg && h !in built && h !in controller.Repr && h.id == |built|
      requires h.state == Built(cfg).(launches := 0)
      modifies this`world, this`built, this`Repr, controller, controller.clients, controller.InnerOf(c), h
      ensures Valid() && built == old(built) + [h] && fresh(Repr - old(Repr) - {h})
      ensures world == World(old(world).reg[(c, s) := |old(world).handlers|], old(world).handlers + [Built(cfg)])
    {
      ghost var was := world.handlers;
      RegisterHandler(c, s, h);
      LaunchHandler(c, s);
      RegisteredAndLaunched(was, cfg);
    }

    method RecreateHandler(c: ClientId, s: ServerId, cfg: Config) returns (ok: bool)
      requires Valid()
      modifies Repr
      ensures Valid() && fresh(Repr - old(Repr))
      ensures Outcome(world, ok) == Recreate(old(world), c, s, cfg, frp)
    {
      RemoveHandler(c, s);
      var h := NewClientHandler(cfg, |built|);
      ok := h.Some?;
      if ok {
        InstallHandler(c, s, h.value, OnlyValid(cfg, frp));
      }
    }

    ghost function IdsOfClient(c: ClientId): set<nat>
      reads this
    {
      set p | p in world.reg && p.0 == c :: world.reg[p]
    }

    lemma SameOfClient(c: ClientId)
      requires Valid()
      ensures controller.OfClient(c) <= Repr
      ensures forall i :: 0 <= i < |built| ==> (i in IdsOfClient(c) <==> built[i] in controller.OfClient(c))
    {
      forall h | h in controller.OfClient(c) ensures h in Repr {
        var s :| (c, s) in controller.flat && controller.flat[(c, s)] == h;
        assert built[world.reg[(c, s)]] == h;
      }
      forall i | 0 <= i < |built| ensures i in IdsOfClient(c) <==> built[i] in controller.OfClient(c) {
        if built[i] in controller.OfClient(c) {
          var s :| (c, s) in controller.flat && controller.flat[(c, s)] == built[i];
          assert (c, s) in world.reg && world.reg[(c, s)] == i;
        }
        if i in IdsOfClient(c) {
          var s :| (c, s) in world.reg && world.reg[(c, s)] == i;
          assert (c, s) in controller.flat && controller.flat[(c, s)] == built[i];
        }
      }
    }

    lemma SameOfAll()
      requires Valid()
      ensures controller.flat.Values <= Repr
      ensures forall i :: 0 <= i < |built| ==> (i in world.reg.Values <==> built[i] in controller.flat.Values)
    {
      forall h | h in controller.flat.Values ensures h in Repr {
        var p :| p in controller.flat && controller.flat[p] == h;
        assert p == (p.0, p.1) && built[world.reg[p]] == h;
      }
      forall i | 0 <= i < |built| ensures i in world.reg.Values <==> built[i] in controller.flat.Values {
        if built[i] in controller.flat.Values {
          var p :| p in controller.flat && controller.flat[p] == built[i];
          assert p == (p.0, p.1) && world.reg[p] == i;
        }
        if i in world.reg.Values {
          var p :| p in world.reg && world.reg[p] == i;
          assert p == (p.0, p.1) && controller.flat[p] == built[i];
        }
      }
    }

    method StopByClient(c: ClientId)
      requires Valid()
      modifies this`world, controller.OfClient(c)
      ensures Valid() && world == StopClient(old(world), c)
    {
      SameOfClient(c);
      ghost var ids := IdsOfClient(c);
      controller.StopByClient(c);
      world := world.(handlers := StopAmong(world.handlers, ids));
    }

    method DeleteByClient(c: ClientId)
      requires Valid()
      modifies this`world, controller`flat, controller.clients
      ensures Valid() && world == DeleteClient(old(world), c)
    {
      controller.DeleteByClient(c);
      world := DeleteClient(world, c);
    }

    method StopAll()
      requires Valid()
      modifies this`world, controller.flat.Values
      ensures Valid() && world == World(old(world).reg, StopAmong(old(world).handlers, old(world).reg.Values))
    {
      SameOfAll();
      controller.StopAll();
      forall h | h in controller.flat.Values ensures h.state == Halted(old(h.state)) {
        var p :| p in controller.flat && controller.flat[p] == h;
        assert p == (p.0, p.1);
      }
      world := World(world.reg, StopAmong(world.handlers, world.reg.Values));
    }

    /** StopAll followed by DeleteAll. */
    method StopAndDelete()
      requires Valid()
      modifies Repr
      ensures Valid() && fresh(Repr - old(Repr))
      ensures world == StopAndDeleteAll(old(world))
    {
      SameOfAll();
      StopAll();
      controller.DeleteAll();
      Repr := Repr + controller.Repr;
      world := World(map[], world.handlers);
    }

    // ---------------------------------------------------------------- requests

    method UpdateHandler(h: ClientHandler, cfg: Config)
      requires Valid() && h in built
      modifies this`world, h
      ensures Valid()
      ensures h.id < |old(world).handlers|
      ensures world == old(world).(handlers := old(world).handlers[h.id := Updated(old(world).handlers[h.id], cfg)])
    {
      h.Update(cfg);
      world := world.(handlers := world.handlers[h.id := h.state]);
    }

    /** One client's configuration, as a pull delivers it. */
    method PullLeaf(c: ClientId, s: ServerId, cfg: Config) returns (ok: bool)
      requires Valid()
      modifies Repr
      ensures Valid() && fresh(Repr - old(Repr))
      ensures Outcome(world, ok) == Reconcile(old(world), c, s, cfg, frp, true)
    {
      var existing := controller.Get(c, s);
      if existing.None? {
        ok := RecreateHandler(c, s, cfg);
      } else if existing.value.state.common != cfg.common {
        ok := RecreateHandler(c, s, cfg);
      } else if !existing.value.state.running {
        ok := RecreateHandler(c, s, cfg);
      } else {
        UpdateHandler(existing.value, cfg);
        ok := true;
      }
    }

    /** A pushed update: the twin of PullLeaf, which does not look at whether the handler is running. */
    method HandleUpdate(c: ClientId, s: ServerId, loaded: Loaded) returns (ok: bool)
      requires Valid()
      modifies Repr
      ensures Valid() && fresh(Repr - old(Repr))
      ensures Outcome(world, ok) == Push(old(world), c, s, loaded, frp)
    {
      if loaded.Rejected? {
        return false;
      }
      var cfg := loaded.config;
      var existing := controller.Get(c, s);
      if existing.None? {
        ok := RecreateHandler(c, s, cfg);
        return;
      }
      if existing.value.state.common == cfg.common {
        UpdateHandler(existing.value, cfg);
        return true;
      }
      ok := RecreateHandler(c, s, cfg);
    }

    method HandleStop()
      requires Valid()
      modifies Repr
      ensures Valid() && fresh(Repr - old(Repr)) && world == StopAndDeleteAll(old(world))
    {
      StopAndDelete();
    }

    method RemoveClient(c: ClientId)
      requires Valid()
      modifies Repr
      ensures Valid() && Repr == old(Repr)
      ensures world == DeleteClient(StopClient(old(world), c), c)
    {
      SameOfClient(c);
      StopByClient(c);
      DeleteByClient(c);
    }

    /** The pass over the children that the master lists: those that are not registered are stopped and deleted. */
    method PruneChildren(listed: seq<ClientId>) returns (ghost registered: set<ClientId>)
      requires Valid()
      modifies Repr
      ensures Valid() && fresh(Repr - old(Repr))
      ensures forall p :: p in old(world).reg ==> p.0 in registered
      ensures world == Prune(old(world), listed, registered)
    {
      var current := controller.List();
      registered := set c | c in current;
      forall p | p in world.reg ensures p.0 in registered {
        assert p == (p.0, p.1);
      }
      for i := 0 to |listed|
        invariant Valid() && Repr == old(Repr)
        invariant Prune(world, listed[i..], registered) == Prune(old(world), listed, registered)
      {
        if listed[i] !in current {
          RemoveClient(listed[i]);
        }
      }
    }

    /** Pulls each child, whatever becomes of the others. */
    method PullEach(c: ClientId, kids: seq<ClientId>, master: ClientId -> Answer, ghost depth: nat)
      requires Valid() && shouldRun && depth > 0 && PullChildren(world, c, kids, master, frp, depth).Some?
      modifies Repr
      ensures Valid() && fresh(Repr - old(Repr))
      ensures PullChildren(old(world), c, kids, master, frp, depth) == Some(world)
      decreases depth, 0
    {
      for i := 0 to |kids|
        invariant Valid() && fresh(Repr - old(Repr))
        invariant PullChildren(world, c, kids[i..], master, frp, depth) == PullChildren(old(world), c, kids, master, frp, depth)
      {
        if kids[i] == c {
          continue;
        }
        var _ := PullConfigForID(kids[i], master, depth - 1);
      }
    }

    /** The recursive pull, for every master under which it ends: depth only says how deep the recursion goes. */
    method PullConfigForID(c: ClientId, master: ClientId -> Answer, ghost depth: nat) returns (ok: bool)
      requires Valid() && (shouldRun ==> Pull(world, c, master, frp, depth).Some?)
      modifies Repr
      ensures Valid() && fresh(Repr - old(Repr))
      ensures shouldRun ==> Pull(old(world), c, master, frp, depth) == Some(Outcome(world, ok))
      ensures !shouldRun ==> world == old(world) && ok
      decreases depth, 1
    {
      if !shouldRun {
        return true;
      }
      var answer := master(c);
      if answer.RpcError? {
        return false;
      }
      if answer.NoClient? {
        return true;
      }
      if answer.stopped {
        SameOfClient(c);
        StopByClient(c);
        return true;
      }
      if !answer.hasOrigin {
        ghost var registered := PruneChildren(answer.children);
        PruneIsIdentity(old(world), answer.children, registered);
      }
      if answer.children != [] {
        PullEach(c, answer.children, master, depth);
        return true;
      }
      if answer.config.Blank? {
        return true;
      }
      if answer.config.loaded.Rejected? {
        return false;
      }
      ok := PullLeaf(c, answer.server, answer.config.loaded.config);
    }
  }
}
