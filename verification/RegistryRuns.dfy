/** Runs of the service that show where it does not do what one would expect; when exactly, the laws say. */
module RegistryRuns {
  import opened Options
  import opened Registry
  import opened RegistryLaws

  /** A master that delivers one configuration for one server to everybody. */
  function Delivers(cfg: Config, s: ServerId): ClientId -> Answer {
    _ => Leaf(cfg, s, true)
  }

  /** A master that has stopped everybody. */
  function Stops(): ClientId -> Answer {
    _ => Client(true, true, [], Blank, 0)
  }

  /** A master for which client 0 has the one child 2, and that knows nobody else. */
  function Lists2(): ClientId -> Answer {
    c => if c == 0 then Client(false, false, [2], Blank, 0) else NoClient
  }

  function Start(): World {
    World(map[], [])
  }

  /** The first pull for client 0 and server s registers handler 0. */
  lemma FirstPull(c: ClientId, cfg: Config, s: ServerId, frp: Frp)
    requires frp.builds(OnlyValid(cfg, frp))
    ensures Pull(Start(), c, Delivers(cfg, s), frp, 1) ==
            Some(Outcome(World(map[(c, s) := 0], [Built(OnlyValid(cfg, frp))]), true))
  {
    var h := Built(OnlyValid(cfg, frp));
    assert Start().reg[(c, s) := 0] == map[(c, s) := 0] && Start().handlers + [h] == [h];
    assert Recreate(Start(), c, s, cfg, frp) == Outcome(World(map[(c, s) := 0], [h]), true);
    assert Local(Start(), c, Leaf(cfg, s, true), frp) == Reconcile(Start(), c, s, cfg, frp, true);
  }

  /** Client 0 is moved from server 0 to server 1: both handlers are registered, and neither was told to stop. */
  lemma ServerChangeKeepsOld(cfg: Config, frp: Frp) returns (ws: seq<World>, rs: seq<Request>)
    requires frp.builds(OnlyValid(cfg, frp))
    ensures rs == [PullRequest(0, Delivers(cfg, 0), 1), PullRequest(0, Delivers(cfg, 1), 1)] && Service(ws, rs, frp)
    ensures ws[2].reg == map[(0, 0) := 0, (0, 1) := 1] && |ws[2].handlers| == 2
    ensures !ws[2].handlers[0].stopped && !ws[2].handlers[1].stopped
  {
    FirstPull(0, cfg, 0, frp);
    var h := Built(OnlyValid(cfg, frp));
    var w1 := World(map[(0, 0) := 0], [h]);
    var w2 := World(map[(0, 0) := 0, (0, 1) := 1], [h, h]);
    var r1, r2 := PullRequest(0, Delivers(cfg, 0), 1), PullRequest(0, Delivers(cfg, 1), 1);
    assert Serve(w1, r2, frp) == w2;
    ws, rs := [Start(), w1, w2], [r1, r2];
  }

  lemma StopOnly(reg: map<(ClientId, ServerId), nat>, h: HandlerState)
    requires reg == map[(0, 0) := 0]
    ensures StopClient(World(reg, [h]), 0) == World(reg, [Halted(h)])
  {
    assert (0, 0) in reg && 0 in (set p | p in reg && p.0 == 0 :: reg[p]);
  }

  /** Client 0 is stopped by the master and pulled again before its run has ended: the pull succeeds and keeps the stopped
      handler. */
  lemma PullKeepsStopped(cfg: Config, frp: Frp) returns (ws: seq<World>, rs: seq<Request>)
    requires frp.builds(OnlyValid(cfg, frp)) && OnlyValid(cfg, frp) == cfg
    ensures rs == [PullRequest(0, Delivers(cfg, 0), 1), Begins(0), PullRequest(0, Stops(), 1),
                   PullRequest(0, Delivers(cfg, 0), 1)]
    ensures Service(ws, rs, frp) && Pull(ws[3], 0, Delivers(cfg, 0), frp, 1) == Some(Outcome(ws[4], true))
    ensures Kept(ws[3], (0, 0), cfg) && ws[4].reg == map[(0, 0) := 0] && |ws[4].handlers| == 1 && ws[4].handlers[0].stopped
  {
    FirstPull(0, cfg, 0, frp);
    var reg: map<(ClientId, ServerId), nat> := map[(0, 0) := 0];
    var h1 := Built(cfg);
    var h2 := h1.(running := true);
    var h3 := Halted(h2);
    var r1, r2, r3 := PullRequest(0, Delivers(cfg, 0), 1), Begins(0), PullRequest(0, Stops(), 1);
    assert Serve(World(reg, [h1]), r2, frp) == World(reg, [h2]);
    StopOnly(reg, h2);
    assert Serve(World(reg, [h2]), r3, frp) == World(reg, [h3]);
    assert Updated(h3, cfg) == h3 && [h3][0 := h3] == [h3];
    assert Reconcile(World(reg, [h3]), 0, 0, cfg, frp, true) == Outcome(World(reg, [h3]), true);
    assert Pull(World(reg, [h3]), 0, Delivers(cfg, 0), frp, 1) == Some(Outcome(World(reg, [h3]), true));
    ws := [Start(), World(reg, [h1]), World(reg, [h2]), World(reg, [h3]), World(reg, [h3])];
    rs := [r1, r2, r3, r1];
  }

  /** Client 0 is stopped by the master, its run ends, and the same configuration is pushed: the push reports success,
      launches nothing, and leaves a handler that is stopped and not running. */
  lemma PushKeepsDead(cfg: Config, frp: Frp) returns (ws: seq<World>, rs: seq<Request>)
    requires frp.builds(OnlyValid(cfg, frp)) && OnlyValid(cfg, frp) == cfg
    ensures |rs| == 5 && rs[..4] == [PullRequest(0, Delivers(cfg, 0), 1), Begins(0), PullRequest(0, Stops(), 1), Ends(0)]
    ensures rs[4] == PushRequest(0, 0, Parsed(cfg)) && Service(ws, rs, frp)
    ensures Push(ws[4], 0, 0, Parsed(cfg), frp) == Outcome(ws[5], true) && ws[5].reg == map[(0, 0) := 0]
    ensures |ws[5].handlers| == 1 && ws[5].handlers[0].stopped && !ws[5].handlers[0].running && ws[5].handlers[0].launches == 1
  {
    FirstPull(0, cfg, 0, frp);
    var reg: map<(ClientId, ServerId), nat> := map[(0, 0) := 0];
    var h1 := Built(cfg);
    var h2 := h1.(running := true);
    var h3 := Halted(h2);
    var h4 := h3.(running := false);
    var r1, r2, r3, r4 := PullRequest(0, Delivers(cfg, 0), 1), Begins(0), PullRequest(0, Stops(), 1), Ends(0);
    assert Serve(World(reg, [h1]), r2, frp) == World(reg, [h2]);
    StopOnly(reg, h2);
    assert Serve(World(reg, [h2]), r3, frp) == World(reg, [h3]);
    assert Serve(World(reg, [h3]), r4, frp) == World(reg, [h4]);
    assert Updated(h4, cfg) == h4 && [h4][0 := h4] == [h4];
    assert Push(World(reg, [h4]), 0, 0, Parsed(cfg), frp) == Outcome(World(reg, [h4]), true);
    ws := [Start(), World(reg, [h1]), World(reg, [h2]), World(reg, [h3]), World(reg, [h4]), World(reg, [h4])];
    rs := [r1, r2, r3, r4, PushRequest(0, 0, Parsed(cfg))];
  }

  /** Client 1 is registered and then no longer among the children that the master lists: neither the pull of its parent
      nor the pass over expired children removes it. */
  lemma ExpiredChildStays(cfg: Config, frp: Frp) returns (ws: seq<World>, rs: seq<Request>)
    requires frp.builds(OnlyValid(cfg, frp))
    ensures rs == [PullRequest(1, Delivers(cfg, 0), 1), PullRequest(0, Lists2(), 2)] && Service(ws, rs, frp)
    ensures (1, 0) in ws[2].reg && ws[2] == ws[1] && Prune(ws[1], [2], {1}) == ws[1]
    ensures !ws[2].handlers[ws[2].reg[(1, 0)]].stopped
  {
    FirstPull(1, cfg, 0, frp);
    var w1 := World(map[(1, 0) := 0], [Built(OnlyValid(cfg, frp))]);
    var r2 := PullRequest(0, Lists2(), 2);
    assert Lists2()(0).children == [2] && [2][1..] == [];
    assert Pull(w1, 2, Lists2(), frp, 1) == Some(Outcome(w1, true));
    assert PullChildren(w1, 0, [2], Lists2(), frp, 2) == PullChildren(w1, 0, [], Lists2(), frp, 2) == Some(w1);
    assert Pull(w1, 0, Lists2(), frp, 2) == Some(Outcome(w1, true));
    PruneIsIdentity(w1, [2], {1});
    ws, rs := [Start(), w1, w1], [PullRequest(1, Delivers(cfg, 0), 1), r2];
  }
}
