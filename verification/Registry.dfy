/** The tunnel registry as a value, and what each remote request does to it. Client ids, server ids and tunnel
    names are only ever compared, so they are numbered. */
module Registry {
  import opened Options

  type ClientId = nat
  type ServerId = nat
  type Name = nat

  datatype Common = Common(settings: nat)
  datatype Tunnel = Tunnel(name: Name, settings: nat)
  datatype Config = Config(common: Common, proxies: seq<Tunnel>, visitors: seq<Tunnel>)

  /** What the loader makes of a configuration text. */
  datatype Loaded = Rejected | Parsed(config: Config)

  /** The configuration text of a master's answer. */
  datatype ConfigText = Blank | Text(loaded: Loaded)

  /** The master's answer to a pull for one client. */
  datatype Answer =
    | RpcError
    | NoClient
    | Client(stopped: bool, hasOrigin: bool, children: seq<ClientId>, config: ConfigText, server: ServerId)

  /** What frp decides: which tunnels are valid, and for which configurations a client can be built. */
  datatype Frp = Frp(validProxy: Tunnel -> bool, validVisitor: Tunnel -> bool, builds: Config -> bool)

  /** A handler: the configuration it was built with, its name maps, the lists its frp client is serving, and its life. */
  datatype HandlerState = HandlerState(
    common: Common,
    proxies: map<Name, Tunnel>,
    visitors: map<Name, Tunnel>,
    serving: (seq<Tunnel>, seq<Tunnel>),
    stopped: bool,
    running: bool,
    launches: nat)

  /** Every handler ever built, in order, and the one registered under each client and server. */
  datatype World = World(reg: map<(ClientId, ServerId), nat>, handlers: seq<HandlerState>)

  datatype Outcome = Outcome(world: World, ok: bool)

  function Filter(ts: seq<Tunnel>, keep: Tunnel -> bool): seq<Tunnel> {
    if ts == [] then [] else Filter(ts[..|ts| - 1], keep) + (if keep(ts[|ts| - 1]) then [ts[|ts| - 1]] else [])
  }

  predicate Increasing(positions: seq<nat>) {
    forall i, j :: 0 <= i < j < |positions| ==> positions[i] < positions[j]
  }

  /** out holds what stands at the positions, and keep accepts it. */
  predicate Picks(ts: seq<Tunnel>, keep: Tunnel -> bool, positions: seq<nat>, out: seq<Tunnel>) {
    && |positions| == |out|
    && forall i :: 0 <= i < |positions| ==> positions[i] < |ts| && keep(ts[positions[i]]) && out[i] == ts[positions[i]]
  }

  predicate Covers(ts: seq<Tunnel>, keep: Tunnel -> bool, positions: seq<nat>) {
    forall n :: 0 <= n < |ts| && keep(ts[n]) ==> n in positions
  }

  /** out lists the tunnels of ts that keep accepts: positions says where each comes from, in the order of ts, and no
      accepted one is left out. */
  predicate SelectedAt(ts: seq<Tunnel>, keep: Tunnel -> bool, positions: seq<nat>, out: seq<Tunnel>) {
    Increasing(positions) && Picks(ts, keep, positions, out) && Covers(ts, keep, positions)
  }

  ghost predicate Selected(ts: seq<Tunnel>, keep: Tunnel -> bool, out: seq<Tunnel>) {
    exists positions: seq<nat> :: SelectedAt(ts, keep, positions, out)
  }

  lemma CoversOneMore(ts: seq<Tunnel>, keep: Tunnel -> bool, front: seq<nat>)
    requires ts != [] && Covers(ts[..|ts| - 1], keep, front)
    ensures Covers(ts, keep, if keep(ts[|ts| - 1]) then front + [|ts| - 1] else front)
  {
    var n := |ts| - 1;
    var positions := if keep(ts[n]) then front + [n] else front;
    forall m | 0 <= m < |ts| && keep(ts[m]) ensures m in positions {
      if m < n {
        assert ts[..n][m] == ts[m];
      } else {
        assert positions[|front|] == n;
      }
    }
  }

  lemma PicksOneMore(ts: seq<Tunnel>, keep: Tunnel -> bool, front: seq<nat>, out: seq<Tunnel>)
    requires ts != [] && Increasing(front) && Picks(ts[..|ts| - 1], keep, front, out)
    ensures Picks(ts, keep, front, out)
    ensures keep(ts[|ts| - 1]) ==> Increasing(front + [|ts| - 1]) && Picks(ts, keep, front + [|ts| - 1], out + [ts[|ts| - 1]])
  {
  }

  lemma {:induction false} FilterSelects(ts: seq<Tunnel>, keep: Tunnel -> bool) returns (positions: seq<nat>)
    ensures SelectedAt(ts, keep, positions, Filter(ts, keep))
  {
    if ts == [] {
      positions := [];
    } else {
      var n := |ts| - 1;
      positions := FilterSelects(ts[..n], keep);
      CoversOneMore(ts, keep, positions);
      PicksOneMore(ts, keep, positions, Filter(ts[..n], keep));
      assert Filter(ts[..n], keep) + [] == Filter(ts[..n], keep);
      if keep(ts[n]) {
        positions := positions + [n];
      }
    }
  }

  lemma CoversFront(ts: seq<Tunnel>, keep: Tunnel -> bool, positions: seq<nat>, out: seq<Tunnel>)
    requires ts != [] && SelectedAt(ts, keep, positions, out) && keep(ts[|ts| - 1])
    ensures positions != [] && positions[|positions| - 1] == |ts| - 1
    ensures Covers(ts[..|ts| - 1], keep, positions[..|positions| - 1])
  {
    var n, k := |ts| - 1, |positions| - 1;
    var i :| 0 <= i < |positions| && positions[i] == n;
    forall m | 0 <= m < n && keep(ts[..n][m]) ensures m in positions[..k] {
      assert ts[..n][m] == ts[m];
      var j :| 0 <= j < |positions| && positions[j] == m;
      assert positions[..k][j] == m;
    }
  }

  lemma PicksFront(ts: seq<Tunnel>, keep: Tunnel -> bool, positions: seq<nat>, out: seq<Tunnel>)
    requires ts != [] && Increasing(positions) && Picks(ts, keep, positions, out)
    requires forall i :: 0 <= i < |positions| ==> positions[i] < |ts| - 1
    ensures Picks(ts[..|ts| - 1], keep, positions, out)
  {
  }

  /** Without its last tunnel, a list has the same selection, less that tunnel if it was accepted. */
  lemma SelectedFront(ts: seq<Tunnel>, keep: Tunnel -> bool, positions: seq<nat>, out: seq<Tunnel>)
    requires ts != [] && SelectedAt(ts, keep, positions, out)
    ensures var n, k := |ts| - 1, |out| - 1;
            if keep(ts[n]) then out != [] && out[k] == ts[n] && SelectedAt(ts[..n], keep, positions[..k], out[..k])
            else SelectedAt(ts[..n], keep, positions, out)
  {
    var n, k := |ts| - 1, |out| - 1;
    if keep(ts[n]) {
      CoversFront(ts, keep, positions, out);
      assert Increasing(positions[..k]) && Picks(ts, keep, positions[..k], out[..k]);
      PicksFront(ts, keep, positions[..k], out[..k]);
    } else {
      PicksFront(ts, keep, positions, out);
      assert Covers(ts[..n], keep, positions);
    }
  }

  /** So what a filter keeps is determined by that. */
  lemma {:induction false} SelectionUnique(ts: seq<Tunnel>, keep: Tunnel -> bool, positions: seq<nat>, out: seq<Tunnel>)
    requires SelectedAt(ts, keep, positions, out)
    ensures out == Filter(ts, keep)
  {
    if ts == [] {
      assert out == [];
    } else {
      var n, k := |ts| - 1, |out| - 1;
      SelectedFront(ts, keep, positions, out);
      if keep(ts[n]) {
        SelectionUnique(ts[..n], keep, positions[..k], out[..k]);
        assert out == out[..k] + [out[k]];
      } else {
        SelectionUnique(ts[..n], keep, positions, out);
      }
    }
  }

  lemma {:induction false} SelectedOften(ts: seq<Tunnel>, keep: Tunnel -> bool, positions: seq<nat>, out: seq<Tunnel>, x: Tunnel)
    requires SelectedAt(ts, keep, positions, out)
    ensures multiset(out)[x] == if keep(x) then multiset(ts)[x] else 0
  {
    if ts == [] {
      assert out == [];
    } else {
      var n, k := |ts| - 1, |out| - 1;
      SelectedFront(ts, keep, positions, out);
      assert ts == ts[..n] + [ts[n]];
      if keep(ts[n]) {
        SelectedOften(ts[..n], keep, positions[..k], out[..k], x);
        assert out == out[..k] + [out[k]];
      } else {
        SelectedOften(ts[..n], keep, positions, out, x);
      }
    }
  }

  lemma {:induction false} AllSelected(ts: seq<Tunnel>, keep: Tunnel -> bool, positions: seq<nat>, out: seq<Tunnel>)
    requires SelectedAt(ts, keep, positions, out) && forall i :: 0 <= i < |ts| ==> keep(ts[i])
    ensures out == ts
  {
    if ts == [] {
      assert out == [];
    } else {
      var n, k := |ts| - 1, |out| - 1;
      SelectedFront(ts, keep, positions, out);
      AllSelected(ts[..n], keep, positions[..k], out[..k]);
      assert out == out[..k] + [out[k]];
    }
  }

  /** Each accepted tunnel is left as often as it occurs and no other is, and a list of accepted ones is left as it is. */
  lemma {:induction false} SelectedLaws(ts: seq<Tunnel>, keep: Tunnel -> bool, out: seq<Tunnel>, x: Tunnel)
    requires Selected(ts, keep, out)
    ensures multiset(out)[x] == if keep(x) then multiset(ts)[x] else 0
    ensures (forall i :: 0 <= i < |ts| ==> keep(ts[i])) ==> out == ts
  {
    var positions: seq<nat> :| SelectedAt(ts, keep, positions, out);
    SelectedOften(ts, keep, positions, out, x);
    if forall i :: 0 <= i < |ts| ==> keep(ts[i]) {
      AllSelected(ts, keep, positions, out);
    }
  }

  /** Tunnels by name; of two with the same name the later one stays. */
  function ByName(ts: seq<Tunnel>): map<Name, Tunnel> {
    if ts == [] then map[] else ByName(ts[..|ts| - 1])[ts[|ts| - 1].name := ts[|ts| - 1]]
  }

  /** A name leads to the last tunnel that has it. */
  lemma {:induction false} ByNameIsLast(ts: seq<Tunnel>, i: nat)
    requires i < |ts| && forall j :: i < j < |ts| ==> ts[j].name != ts[i].name
    ensures ts[i].name in ByName(ts) && ByName(ts)[ts[i].name] == ts[i]
  {
    var n := |ts| - 1;
    if i < n {
      assert ts[..n][i] == ts[i] && ts[n].name != ts[i].name;
      ByNameIsLast(ts[..n], i);
    }
  }

  lemma {:induction false} ByNameHasNames(ts: seq<Tunnel>, name: Name)
    ensures name in ByName(ts) <==> exists i :: 0 <= i < |ts| && ts[i].name == name
  {
    if ts == [] {
    } else {
      var n := |ts| - 1;
      ByNameHasNames(ts[..n], name);
      if i :| 0 <= i < n && ts[i].name == name {
        assert ts[..n][i] == ts[i];
      }
      if i :| 0 <= i < n && ts[..n][i].name == name {
        assert ts[i] == ts[..n][i];
      }
    }
  }

  function OnlyValid(cfg: Config, frp: Frp): Config {
    cfg.(proxies := Filter(cfg.proxies, frp.validProxy), visitors := Filter(cfg.visitors, frp.validVisitor))
  }

  /** What is left of a configuration when each tunnel that frp does not accept is dropped, and nothing else is changed. */
  ghost predicate Validated(cfg: Config, frp: Frp, left: Config) {
    && left.common == cfg.common && Selected(cfg.proxies, frp.validProxy, left.proxies)
    && Selected(cfg.visitors, frp.validVisitor, left.visitors)
  }

  /** A client can be built from what is left. */
  ghost predicate Buildable(cfg: Config, frp: Frp) {
    exists left :: Validated(cfg, frp, left) && frp.builds(left)
  }

  lemma OnlyValidValidates(cfg: Config, frp: Frp)
    ensures Validated(cfg, frp, OnlyValid(cfg, frp))
  {
    var ps := FilterSelects(cfg.proxies, frp.validProxy);
    var vs := FilterSelects(cfg.visitors, frp.validVisitor);
  }

  lemma ValidatedOnce(cfg: Config, frp: Frp, left: Config)
    requires Validated(cfg, frp, left)
    ensures left == OnlyValid(cfg, frp)
  {
    var ps: seq<nat> :| SelectedAt(cfg.proxies, frp.validProxy, ps, left.proxies);
    SelectionUnique(cfg.proxies, frp.validProxy, ps, left.proxies);
    var vs: seq<nat> :| SelectedAt(cfg.visitors, frp.validVisitor, vs, left.visitors);
    SelectionUnique(cfg.visitors, frp.validVisitor, vs, left.visitors);
  }

  lemma BuildableIff(cfg: Config, frp: Frp)
    ensures Buildable(cfg, frp) <==> frp.builds(OnlyValid(cfg, frp))
  {
    OnlyValidValidates(cfg, frp);
    if left :| Validated(cfg, frp, left) && frp.builds(left) {
      ValidatedOnce(cfg, frp, left);
    }
  }

  /** What that means tunnel by tunnel: each accepted one is left as often as it was delivered, no other is left, and a
      configuration with accepted tunnels only is left as it is. */
  lemma {:induction false} ValidatedOften(cfg: Config, frp: Frp, left: Config, x: Tunnel)
    requires Validated(cfg, frp, left)
    ensures multiset(left.proxies)[x] == if frp.validProxy(x) then multiset(cfg.proxies)[x] else 0
    ensures multiset(left.visitors)[x] == if frp.validVisitor(x) then multiset(cfg.visitors)[x] else 0
    ensures (forall p :: p in cfg.proxies ==> frp.validProxy(p)) && (forall v :: v in cfg.visitors ==> frp.validVisitor(v)) ==>
              left == cfg
  {
    SelectedLaws(cfg.proxies, frp.validProxy, left.proxies, x);
    SelectedLaws(cfg.visitors, frp.validVisitor, left.visitors, x);
  }

  /** A handler as NewClientHandler leaves it, already launched once. */
  function Built(cfg: Config): HandlerState {
    HandlerState(cfg.common, ByName(cfg.proxies), ByName(cfg.visitors), (cfg.proxies, cfg.visitors), false, false, 1)
  }

  /** A handler as Update leaves it: nothing is filtered here. */
  function Updated(h: HandlerState, cfg: Config): HandlerState {
    h.(proxies := ByName(cfg.proxies), visitors := ByName(cfg.visitors), serving := (cfg.proxies, cfg.visitors))
  }

  function Halted(h: HandlerState): HandlerState {
    h.(stopped := true)
  }

  function StopAmong(hs: seq<HandlerState>, ids: set<nat>): (r: seq<HandlerState>)
    ensures |r| == |hs|
    ensures forall i :: 0 <= i < |hs| ==> r[i] == if i in ids then Halted(hs[i]) else hs[i]
  {
    seq(|hs|, i requires 0 <= i < |hs| => if i in ids then Halted(hs[i]) else hs[i])
  }

  function StopClient(w: World, c: ClientId): World {
    w.(handlers := StopAmong(w.handlers, set p | p in w.reg && p.0 == c :: w.reg[p]))
  }

  function DeleteClient(w: World, c: ClientId): World {
    w.(reg := map p | p in w.reg && p.0 != c :: w.reg[p])
  }

  function StopAndDeleteAll(w: World): World {
    World(map[], StopAmong(w.handlers, w.reg.Values))
  }

  function Recreate(w: World, c: ClientId, s: ServerId, cfg: Config, frp: Frp): Outcome {
    var cleared := if (c, s) in w.reg then World(w.reg - {(c, s)}, StopAmong(w.handlers, {w.reg[(c, s)]})) else w;
    if frp.builds(OnlyValid(cfg, frp)) then
      Outcome(World(cleared.reg[(c, s) := |cleared.handlers|], cleared.handlers + [Built(OnlyValid(cfg, frp))]), true)
    else
      Outcome(cleared, false)
  }

  /** A configuration delivered for a client and a server. A pull replaces a handler that is not running; a pushed update
      does not look. */
  function Reconcile(w: World, c: ClientId, s: ServerId, cfg: Config, frp: Frp, pulled: bool): Outcome {
    if (c, s) !in w.reg || w.reg[(c, s)] >= |w.handlers| then Recreate(w, c, s, cfg, frp)
    else
      var id := w.reg[(c, s)];
      var h := w.handlers[id];
      if h.common != cfg.common || (pulled && !h.running) then Recreate(w, c, s, cfg, frp)
      else Outcome(w.(handlers := w.handlers[id := Updated(h, cfg)]), true)
  }

  predicate Shadow(a: Answer) {
    a.Client? && !a.stopped && a.children != []
  }

  /** What a pull does for one client, its children aside. */
  function Local(w: World, c: ClientId, a: Answer, frp: Frp): Outcome {
    match a
    case RpcError => Outcome(w, false)
    case NoClient => Outcome(w, true)
    case Client(stopped, _, children, config, server) =>
      if stopped then Outcome(StopClient(w, c), true)
      else if children != [] || config.Blank? then Outcome(w, true)
      else if config.loaded.Rejected? then Outcome(w, false)
      else Reconcile(w, c, server, config.loaded.config, frp, true)
  }

  /** A pushed update. */
  function Push(w: World, c: ClientId, s: ServerId, loaded: Loaded, frp: Frp): Outcome {
    if loaded.Rejected? then Outcome(w, false) else Reconcile(w, c, s, loaded.config, frp, false)
  }

  /** The recursive pull, cut off at a depth: None means that the recursion is deeper. An error of a child is ignored, and
      a client that lists itself is skipped. */
  function Pull(w: World, c: ClientId, master: ClientId -> Answer, frp: Frp, depth: nat): Option<Outcome>
    decreases depth, 1, 0
  {
    if depth == 0 then None
    else if Shadow(master(c)) then
      match PullChildren(w, c, master(c).children, master, frp, depth)
      case None => None
      case Some(v) => Some(Outcome(v, true))
    else Some(Local(w, c, master(c), frp))
  }

  function PullChildren(
    w: World, c: ClientId, kids: seq<ClientId>, master: ClientId -> Answer, frp: Frp, depth: nat): Option<World>
    requires depth > 0
    decreases depth, 0, |kids|
  {
    if kids == [] then Some(w)
    else if kids[0] == c then PullChildren(w, c, kids[1..], master, frp, depth)
    else
      match Pull(w, kids[0], master, frp, depth - 1)
      case None => None
      case Some(r) => PullChildren(r.world, c, kids[1..], master, frp, depth)
  }

  /** The clients that a pull reaches, parents before children. */
  function Reached(c: ClientId, master: ClientId -> Answer, depth: nat): seq<ClientId>
    decreases depth, 1, 0
  {
    if depth > 0 && Shadow(master(c)) then [c] + ReachedFrom(c, master(c).children, master, depth) else [c]
  }

  function ReachedFrom(c: ClientId, kids: seq<ClientId>, master: ClientId -> Answer, depth: nat): seq<ClientId>
    requires depth > 0
    decreases depth, 0, |kids|
  {
    if kids == [] then []
    else (if kids[0] == c then [] else Reached(kids[0], master, depth - 1)) + ReachedFrom(c, kids[1..], master, depth)
  }

  /** Local effects, one client after the other. */
  function Fold(w: World, cs: seq<ClientId>, master: ClientId -> Answer, frp: Frp): World
    decreases |cs|
  {
    if cs == [] then w else Fold(Local(w, cs[0], master(cs[0]), frp).world, cs[1..], master, frp)
  }

  lemma {:induction false} FoldConcat(w: World, a: seq<ClientId>, b: seq<ClientId>, master: ClientId -> Answer, frp: Frp)
    ensures Fold(w, a + b, master, frp) == Fold(Fold(w, a, master, frp), b, master, frp)
    decreases |a|
  {
    if a == [] {
      assert a + b == b;
    } else {
      assert (a + b)[0] == a[0] && (a + b)[1..] == a[1..] + b;
      FoldConcat(Local(w, a[0], master(a[0]), frp).world, a[1..], b, master, frp);
    }
  }

  /** A recursive pull that ends has the effect of its local steps, taken in preorder over the clients it reaches. */
  lemma {:induction false} PullIsFold(w: World, c: ClientId, master: ClientId -> Answer, frp: Frp, depth: nat)
    requires Pull(w, c, master, frp, depth).Some?
    ensures Pull(w, c, master, frp, depth).value.world == Fold(w, Reached(c, master, depth), master, frp)
    decreases depth, 1, 0
  {
    if Shadow(master(c)) {
      var rest := ReachedFrom(c, master(c).children, master, depth);
      PullChildrenIsFold(w, c, master(c).children, master, frp, depth);
      assert ([c] + rest)[1..] == rest && Local(w, c, master(c), frp).world == w;
    } else {
      assert [c][1..] == [];
      assert Fold(w, [c], master, frp) == Fold(Local(w, c, master(c), frp).world, [], master, frp);
    }
  }

  lemma {:induction false} PullChildrenIsFold(
    w: World, c: ClientId, kids: seq<ClientId>, master: ClientId -> Answer, frp: Frp, depth: nat)
    requires depth > 0 && PullChildren(w, c, kids, master, frp, depth).Some?
    ensures PullChildren(w, c, kids, master, frp, depth).value == Fold(w, ReachedFrom(c, kids, master, depth), master, frp)
    decreases depth, 0, |kids|
  {
    if kids == [] {
    } else {
      var rest := ReachedFrom(c, kids[1..], master, depth);
      if kids[0] == c {
        PullChildrenIsFold(w, c, kids[1..], master, frp, depth);
        assert [] + rest == rest;
      } else {
        PullIsFold(w, kids[0], master, frp, depth - 1);
        var w1 := Pull(w, kids[0], master, frp, depth - 1).value.world;
        PullChildrenIsFold(w1, c, kids[1..], master, frp, depth);
        FoldConcat(w, Reached(kids[0], master, depth - 1), rest, master, frp);
      }
    }
  }

  /** The depth at which the recursion is cut off makes no difference once it ends. */
  lemma {:induction false} DeeperIsSame(w: World, c: ClientId, master: ClientId -> Answer, frp: Frp, depth: nat, more: nat)
    requires Pull(w, c, master, frp, depth).Some? && depth <= more
    ensures Pull(w, c, master, frp, more) == Pull(w, c, master, frp, depth)
    decreases depth, 1, 0
  {
    if Shadow(master(c)) {
      DeeperChildrenAreSame(w, c, master(c).children, master, frp, depth, more);
    }
  }

  lemma {:induction false} DeeperChildrenAreSame(
    w: World, c: ClientId, kids: seq<ClientId>, master: ClientId -> Answer, frp: Frp, depth: nat, more: nat)
    requires 0 < depth <= more && PullChildren(w, c, kids, master, frp, depth).Some?
    ensures PullChildren(w, c, kids, master, frp, more) == PullChildren(w, c, kids, master, frp, depth)
    decreases depth, 0, |kids|
  {
    if kids == [] {
    } else if kids[0] == c {
      DeeperChildrenAreSame(w, c, kids[1..], master, frp, depth, more);
    } else {
      DeeperIsSame(w, kids[0], master, frp, depth - 1, more - 1);
      DeeperChildrenAreSame(
        Pull(w, kids[0], master, frp, depth - 1).value.world, c, kids[1..], master, frp, depth, more);
    }
  }
}
