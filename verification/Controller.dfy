/** The controller: a map of maps of handlers, proved to behave as one flat map from (client, server) to handler. */
module Controllers {
  import opened Options
  import opened SyncMaps
  import opened Registry

  /** A handler object. Its methods change its configuration and life in place. */
  class ClientHandler {
    ghost const id: nat  // its place among all handlers ever built
    var state: HandlerState

    constructor (ghost id: nat, cfg: Config)
      ensures this.id == id && state == Built(cfg).(launches := 0)
    {
      this.id := id;
      this.state := HandlerState(
        cfg.common, ByName(cfg.proxies), ByName(cfg.visitors), (cfg.proxies, cfg.visitors), false, false, 0);
    }

    method Stop()
      modifies this
      ensures state == Halted(old(state))
    {
      state := state.(stopped := true);
    }

    method Update(cfg: Config)
      modifies this
      ensures state == Updated(old(state), cfg)
    {
      state := state.(proxies := ByName(cfg.proxies));
      state := state.(visitors := ByName(cfg.visitors));
      state := state.(serving := (cfg.proxies, cfg.visitors));
    }

    /** What the goroutine of a run does to the flag when it gets in, and when it is over. */
    method SetRunning(running: bool)
      modifies this
      ensures state == old(state).(running := running)
    {
      state := state.(running := running);
    }

    /** The goroutine that runs the handler is started. */
    method Launch()
      modifies this
      ensures state == Launched(old(state))
    {
      state := state.(launches := state.launches + 1);
    }
  }

  function Launched(h: HandlerState): HandlerState {
    h.(launches := h.launches + 1)
  }

  predicate StoppedOrSame(was: HandlerState, now: HandlerState) {
    now == was || now == Halted(was)
  }

  type Servers = SyncMap<ServerId, ClientHandler>

  class Controller {
    var clients: SyncMap<ClientId, Servers>
    ghost var flat: map<(ClientId, ServerId), ClientHandler>  // what the nested maps mean

    ghost var Repr: set<object>  // the maps it is made of

    ghost predicate Valid()
      reads this, Repr
      ensures Valid() ==> this !in Repr
    {
      && this !in Repr && clients in Repr
      && (forall c :: c in clients.m ==> clients.m[c] in Repr)
      && (forall c, s :: (c, s) in flat <==> c in clients.m && s in clients.m[c].m)
      && (forall c, s :: (c, s) in flat ==> flat[(c, s)] == clients.m[c].m[s])
      && (forall c, d :: c in clients.m && d in clients.m && c != d ==> clients.m[c] != clients.m[d])
    }

    ghost function InnerOf(c: ClientId): set<Servers>
      reads this, clients
    {
      if c in clients.m then {clients.m[c]} else {}
    }

    ghost function Under(c: ClientId, s: ServerId): set<ClientHandler>
      reads this
    {
      if (c, s) in flat then {flat[(c, s)]} else {}
    }

    ghost function OfClient(c: ClientId): set<ClientHandler>
      reads this
    {
      set p | p in flat && p.0 == c :: flat[p]
    }

    lemma InnerIsRegistered(c: ClientId)
      requires Valid() && c in clients.m
      ensures clients.m[c].m.Values <= flat.Values
    {
      forall g | g in clients.m[c].m.Values ensures g in flat.Values {
        var s :| s in clients.m[c].m && clients.m[c].m[s] == g;
        assert (c, s) in flat && flat[(c, s)] == g;
      }
    }

    lemma InnerIsOfClient(c: ClientId)
      requires Valid() && c in clients.m
      ensures clients.m[c].m.Values == OfClient(c)
    {
      forall g | g in clients.m[c].m.Values ensures g in OfClient(c) {
        var s :| s in clients.m[c].m && clients.m[c].m[s] == g;
        assert (c, s) in flat && flat[(c, s)] == g;
      }
    }

    constructor ()
      ensures Valid() && fresh(Repr) && flat == map[]
    {
      clients := new SyncMap();
      flat := map[];
      new;
      Repr := {clients};
    }

    /** The inner map of a client, made first if there is none. */
    method ServersOf(c: ClientId) returns (m: Servers)
      requires Valid()
      modifies this`Repr, clients
      ensures Valid() && fresh(Repr - old(Repr)) && old(Repr) <= Repr
      ensures c in clients.m && clients.m[c] == m && (m in old(InnerOf(c)) || fresh(m))
    {
      var mine := new SyncMap<ServerId, ClientHandler>();
      var loaded;
      m, loaded := clients.LoadOrStore(c, mine);
      Repr := Repr + {mine};
    }

    /** Puts a handler into a client's inner map; one that it displaces is stopped. */
    method Replace(c: ClientId, m: Servers, s: ServerId, h: ClientHandler)
      requires Valid() && c in clients.m && clients.m[c] == m
      modifies this`flat, m, Under(c, s)
      ensures Valid() && flat == old(flat)[(c, s) := h]
      ensures forall g :: g in old(Under(c, s)) ==> g.state == Halted(old(g.state))
    {
      var displaced := m.LoadAndDelete(s);
      if displaced.Some? {
        displaced.value.Stop();
      }
      m.Store(s, h);
      flat := flat[(c, s) := h];
    }

    method Add(c: ClientId, s: ServerId, h: ClientHandler)
      requires Valid()
      modifies this`flat, this`Repr, clients, InnerOf(c), Under(c, s)
      ensures Valid() && fresh(Repr - old(Repr))
      ensures flat == old(flat)[(c, s) := h]
      ensures forall g :: g in old(Under(c, s)) ==> g.state == Halted(old(g.state))
    {
      var m := ServersOf(c);
      Replace(c, m, s, h);
    }

    method Get(c: ClientId, s: ServerId) returns (h: Option<ClientHandler>)
      requires Valid()
      ensures h == if (c, s) in flat then Some(flat[(c, s)]) else None
    {
      var v := clients.Load(c);
      if v.None? {
        return None;
      }
      h := v.value.Load(s);
    }

    method Stop(c: ClientId, s: ServerId)
      requires Valid()
      modifies Under(c, s)
      ensures forall g :: g in Under(c, s) ==> g.state == Halted(old(g.state))
    {
      var v := clients.Load(c);
      if v.None? {
        return;
      }
      var h := v.value.Load(s);
      if h.Some? {
        h.value.Stop();
      }
    }

    method Delete(c: ClientId, s: ServerId)
      requires Valid()
      modifies this`flat, InnerOf(c), Under(c, s)
      ensures Valid() && flat == old(flat) - {(c, s)}
      ensures (c, s) in old(flat) ==> old(flat)[(c, s)].state == Halted(old(flat[(c, s)].state))
      ensures (c, s) in old(flat) && old(flat[(c, s)].state.stopped) ==> old(flat)[(c, s)].state == old(flat[(c, s)].state)
    {
      Stop(c, s);
      var v := clients.Load(c);
      if v.Some? {
        v.value.Delete(s);
      }
      flat := flat - {(c, s)};
    }

    method DeleteByClient(c: ClientId)
      requires Valid()
      modifies this`flat, clients
      ensures Valid() && clients.m == old(clients.m) - {c}
      ensures flat == map p | p in old(flat) && p.0 != c :: old(flat)[p]
    {
      clients.Delete(c);
      flat := map p | p in flat && p.0 != c :: flat[p];
    }

    /** Starts the handler's Run on a goroutine of its own. */
    method Run(c: ClientId, s: ServerId)
      requires Valid()
      modifies Under(c, s)
      ensures forall g :: g in Under(c, s) ==> g.state == Launched(old(g.state))
    {
      var v := clients.Load(c);
      if v.None? {
        return;
      }
      var h := v.value.Load(s);
      if h.None? {
        return;
      }
      h.value.Launch();
    }

    /** Stops every handler of one inner map, in whatever order the range meets them. */
    method StopServers(v: Servers)
      modifies v.m.Values
      ensures forall h :: h in v.m.Values ==> h.state == Halted(old(h.state))
      ensures forall h: ClientHandler :: old(allocated(h)) ==> StoppedOrSame(old(h.state), h.state)
    {
      var rest := v.m.Keys;
      while rest != {}
        invariant rest <= v.m.Keys
        invariant forall s :: s in v.m && s !in rest ==> v.m[s].state.stopped
        invariant forall h: ClientHandler :: old(allocated(h)) ==> StoppedOrSame(old(h.state), h.state)
      {
        var s :| s in rest;
        v.m[s].Stop();
        rest := rest - {s};
      }
    }

    method StopByClient(c: ClientId)
      requires Valid()
      modifies OfClient(c)
      ensures forall h :: h in OfClient(c) ==> h.state == Halted(old(h.state))
    {
      var v := clients.Load(c);
      if v.None? {
        return;
      }
      InnerIsOfClient(c);
      StopServers(v.value);
    }

    method StopAll()
      requires Valid()
      modifies flat.Values
      ensures forall c, s :: (c, s) in flat ==> flat[(c, s)].state.stopped
      ensures forall h: ClientHandler :: old(allocated(h)) ==> StoppedOrSame(old(h.state), h.state)
    {
      var rest := clients.m.Keys;
      while rest != {}
        invariant rest <= clients.m.Keys
        invariant forall c, s :: (c, s) in flat && c !in rest ==> flat[(c, s)].state.stopped
        invariant forall h: ClientHandler :: old(allocated(h)) ==> StoppedOrSame(old(h.state), h.state)
      {
        var c :| c in rest;
        InnerIsRegistered(c);
        StopServers(clients.m[c]);
        rest := rest - {c};
      }
    }

    /** Deletes while ranging: a client that is already gone is not met again. */
    method DeleteAll()
      requires Valid()
      modifies this, clients
      ensures Valid() && fresh(Repr - old(Repr)) && flat == map[]
    {
      while clients.m.Keys != {}
        invariant clients == old(clients) && Repr == old(Repr) && Valid()
        modifies this`flat, clients
        decreases clients.m.Keys
      {
        var c :| c in clients.m.Keys;
        DeleteByClient(c);
      }
      clients := new SyncMap();
      flat := map[];
      Repr := Repr + {clients};
    }

    method List() returns (ids: seq<ClientId>)
      requires Valid()
      ensures forall c :: c in ids <==> c in clients.m
      ensures forall p :: p in flat ==> p.0 in ids
    {
      ids := clients.Keys();
    }
  }
}
