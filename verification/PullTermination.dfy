/** When the recursive pull ends: the recursion skips only a client that lists itself, so longer cycles are not caught. */
module PullTermination {
  import opened Options
  import opened Registry

  /** No chain of children below c, self-listings aside, is as long as depth. */
  ghost predicate Shallow(c: ClientId, master: ClientId -> Answer, depth: nat)
    decreases depth
  {
    depth > 0 && (Shadow(master(c)) ==> forall d :: d in master(c).children && d != c ==> Shallow(d, master, depth - 1))
  }

  /** The recursion ends within a depth exactly when the child relation is that shallow, whatever the registry holds. */
  lemma {:induction false} EndsIfShallow(w: World, c: ClientId, master: ClientId -> Answer, frp: Frp, depth: nat)
    ensures Pull(w, c, master, frp, depth).Some? <==> Shallow(c, master, depth)
    decreases depth, 1, 0
  {
    if depth > 0 && Shadow(master(c)) {
      ChildrenEndIfShallow(w, c, master(c).children, master, frp, depth);
    }
  }

  lemma {:induction false} ChildrenEndIfShallow(
    w: World, c: ClientId, kids: seq<ClientId>, master: ClientId -> Answer, frp: Frp, depth: nat)
    requires depth > 0
    ensures PullChildren(w, c, kids, master, frp, depth).Some? <==>
            forall d :: d in kids && d != c ==> Shallow(d, master, depth - 1)
    decreases depth, 0, |kids|
  {
    if kids == [] {
    } else {
      assert forall d :: d in kids <==> d == kids[0] || d in kids[1..];
      if kids[0] == c {
        ChildrenEndIfShallow(w, c, kids[1..], master, frp, depth);
      } else {
        EndsIfShallow(w, kids[0], master, frp, depth - 1);
        var r := Pull(w, kids[0], master, frp, depth - 1);
        if r.None? {
          assert kids[0] in kids && kids[0] != c && !Shallow(kids[0], master, depth - 1);
          assert PullChildren(w, c, kids, master, frp, depth).None?;
        } else {
          assert PullChildren(w, c, kids, master, frp, depth) ==
                 PullChildren(r.value.world, c, kids[1..], master, frp, depth);
          ChildrenEndIfShallow(r.value.world, c, kids[1..], master, frp, depth);
        }
      }
    }
  }

  /** The child relation has a rank: apart from clients that list themselves, it goes down. */
  ghost predicate Ranked(master: ClientId -> Answer, rank: ClientId -> nat) {
    forall c, d :: Shadow(master(c)) && d in master(c).children && d != c ==> rank(d) < rank(c)
  }

  lemma {:induction false} RankedIsShallow(c: ClientId, master: ClientId -> Answer, rank: ClientId -> nat, depth: nat)
    requires Ranked(master, rank) && rank(c) < depth
    ensures Shallow(c, master, depth)
    decreases depth
  {
    if Shadow(master(c)) {
      forall d | d in master(c).children && d != c ensures Shallow(d, master, depth - 1) {
        assert rank(d) < rank(c);
        RankedIsShallow(d, master, rank, depth - 1);
      }
    }
  }

  /** With a rank the recursion ends, no deeper than the rank of where it starts. */
  lemma RankedPullEnds(w: World, c: ClientId, master: ClientId -> Answer, frp: Frp, rank: ClientId -> nat)
    requires Ranked(master, rank)
    ensures Pull(w, c, master, frp, rank(c) + 1).Some?
  {
    RankedIsShallow(c, master, rank, rank(c) + 1);
    EndsIfShallow(w, c, master, frp, rank(c) + 1);
  }

  lemma {:induction false} LeastDepth(c: ClientId, master: ClientId -> Answer, depth: nat) returns (least: nat)
    requires Shallow(c, master, depth)
    ensures Shallow(c, master, least) && forall n: nat :: n < least ==> !Shallow(c, master, n)
    decreases depth
  {
    if n: nat :| n < depth && Shallow(c, master, n) {
      least := LeastDepth(c, master, n);
    } else {
      least := depth;
    }
  }

  /** A pull of c ends at all. */
  ghost predicate PullEnds(w: World, c: ClientId, master: ClientId -> Answer, frp: Frp) {
    exists depth: nat :: Pull(w, c, master, frp, depth).Some?
  }

  ghost predicate IsDepth(n: nat, c: ClientId, master: ClientId -> Answer) {
    Shallow(c, master, n) && forall m: nat :: m < n ==> !Shallow(c, master, m)
  }

  /** The least depth at which a pull of c ends. */
  ghost function Depth(c: ClientId, master: ClientId -> Answer): nat {
    if n: nat :| IsDepth(n, c, master) then n else 0
  }

  lemma DepthIsShallow(w: World, c: ClientId, master: ClientId -> Answer, frp: Frp)
    requires PullEnds(w, c, master, frp)
    ensures IsDepth(Depth(c, master), c, master)
  {
    var depth: nat :| Pull(w, c, master, frp, depth).Some?;
    EndsIfShallow(w, c, master, frp, depth);
    var least := LeastDepth(c, master, depth);
    assert IsDepth(least, c, master);
  }

  /** A rank is exactly what termination takes: pulls of all clients end if and only if the child relation has one. */
  lemma PullsEndIffRanked(w: World, master: ClientId -> Answer, frp: Frp)
    ensures (forall c :: PullEnds(w, c, master, frp)) <==> (exists rank: ClientId -> nat :: Ranked(master, rank))
  {
    if rank: ClientId -> nat :| Ranked(master, rank) {
      forall c ensures PullEnds(w, c, master, frp) {
        RankedPullEnds(w, c, master, frp, rank);
      }
    }
    if forall c :: PullEnds(w, c, master, frp) {
      var rank := (c: ClientId) => Depth(c, master);
      forall c, d | Shadow(master(c)) && d in master(c).children && d != c ensures rank(d) < rank(c) {
        DepthIsShallow(w, c, master, frp);
        DepthIsShallow(w, d, master, frp);
        assert Shallow(d, master, rank(c) - 1);
      }
      assert Ranked(master, rank);
    }
  }

  /** Two clients that list each other are pulled for ever. */
  lemma {:induction false} MutualChildrenNeverEnd(
    w: World, a: ClientId, b: ClientId, master: ClientId -> Answer, frp: Frp, depth: nat)
    requires a != b && Shadow(master(a)) && Shadow(master(b)) && b in master(a).children && a in master(b).children
    ensures Pull(w, a, master, frp, depth) == None
    decreases depth
  {
    EndsIfShallow(w, a, master, frp, depth);
    if depth == 0 {
    } else {
      MutualChildrenNeverEnd(w, b, a, master, frp, depth - 1);
      EndsIfShallow(w, b, master, frp, depth - 1);
    }
  }
}
