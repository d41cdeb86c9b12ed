/** In a graph written by scans alone, escalation paths between derived accounts are
    host chains in disguise. */
module HostChains {
  import opened PrivilegeGraph
  import opened DerivedGraph
  import opened CredentialReuse
  import opened EscalationPath

  function Climb(a: Id): Rel { Rel(CanEscalate, Foothold(a), Root(a)) }

  function Hop(a: Id, b: Id): Rel { Rel(ReusesCredential, Root(a), Foothold(b)) }

  /** Hosts to take over in turn: climb on each, hop to the next. */
  predicate IsChain(w: Weights, hosts: seq<Id>) {
    && hosts != []
    && (forall i :: 0 <= i < |hosts| ==> Climb(hosts[i]) in w)
    && (forall i :: 0 < i < |hosts| ==> Hop(hosts[i - 1], hosts[i]) in w)
  }

  function ChainPath(hosts: seq<Id>): seq<Rel>
    requires hosts != []
  {
    var n := |hosts| - 1;
    if n == 0 then [Climb(hosts[0])]
    else ChainPath(hosts[..n]) + [Hop(hosts[n - 1], hosts[n]), Climb(hosts[n])]
  }

  function ChainCost(w: Weights, hosts: seq<Id>): real
    requires IsChain(w, hosts)
  {
    var n := |hosts| - 1;
    if n == 0 then w[Climb(hosts[0])]
    else ChainCost(w, hosts[..n]) + w[Hop(hosts[n - 1], hosts[n])] + w[Climb(hosts[n])]
  }

  /** Climbs and hops take turns, starting with a climb. */
  predicate Alternates(p: seq<Rel>) {
    forall i :: 0 <= i < |p| ==> p[i].kind == if i % 2 == 0 then CanEscalate else ReusesCredential
  }

  lemma {:induction false} ChainAlternates(hosts: seq<Id>)
    requires hosts != []
    ensures |ChainPath(hosts)| == 2 * |hosts| - 1 && Alternates(ChainPath(hosts))
  {
    var n := |hosts| - 1;
    if n == 0 {
    } else {
      ChainAlternates(hosts[..n]);
    }
  }

  lemma {:induction false} ChainIsPath(w: Weights, hosts: seq<Id>)
    requires IsChain(w, hosts)
    ensures IsPath(w, ChainPath(hosts), Foothold(hosts[0]), Root(hosts[|hosts| - 1]))
    ensures Cost(w, ChainPath(hosts)) == ChainCost(w, hosts)
  {
    var n := |hosts| - 1;
    if n == 0 {
      PathExtend(w, [], Foothold(hosts[0]), Climb(hosts[0]));
    } else {
      ChainIsPath(w, hosts[..n]);
      var p, hop, climb := ChainPath(hosts[..n]), Hop(hosts[n - 1], hosts[n]), Climb(hosts[n]);
      PathExtend(w, p, Foothold(hosts[0]), hop);
      PathExtend(w, p + [hop], Foothold(hosts[0]), climb);
      assert ChainPath(hosts) == p + [hop] + [climb];
    }
  }

  /** What the shape of a derived graph says about single relationships. */
  ghost predicate HostRels(w: Weights) {
    forall r :: r in w ==>
      if r.kind.CanEscalate? then exists a :: r == Climb(a) else exists a, b :: r == Hop(a, b)
  }

  lemma DerivedHostRels(ops: seq<Op>)
    requires AutoOnly(ops)
    ensures HostRels(WeightsOf(Run(ops)))
  {
    var g := Run(ops);
    var w := WeightsOf(g);
    DerivedShape(ops);
    forall r | r in w
      ensures if r.kind.CanEscalate? then exists a :: r == Climb(a) else exists a, b :: r == Hop(a, b)
    {
      assert HasRel(g, r);
      if r.kind.CanEscalate? {
        assert r == Climb(g.accounts[r.src].assetId);
      } else {
        var x, y := ReuseEdgeIsShared(ops, (r.src, r.dst));
        assert r == Hop(x, y);
      }
    }
  }

  lemma {:induction false} ChainExtend(w: Weights, hosts: seq<Id>, b: Id)
    requires IsChain(w, hosts) && Hop(hosts[|hosts| - 1], b) in w && Climb(b) in w
    ensures IsChain(w, hosts + [b])
    ensures ChainPath(hosts + [b]) == ChainPath(hosts) + [Hop(hosts[|hosts| - 1], b), Climb(b)]
  {
    var longer, n := hosts + [b], |hosts|;
    assert longer[..n] == hosts && longer[n - 1] == hosts[n - 1] && longer[n] == b;
    forall i | 0 <= i < |longer| ensures Climb(longer[i]) in w {
      assert i < n ==> longer[i] == hosts[i];
    }
    forall i | 0 < i < |longer| ensures Hop(longer[i - 1], longer[i]) in w {
      assert i < n ==> longer[i - 1] == hosts[i - 1] && longer[i] == hosts[i];
    }
    assert |longer| - 1 == n > 0;
  }

  lemma LastIsClimb(w: Weights, r: Rel, b: Id)
    requires HostRels(w) && r in w && r.dst == Root(b)
    ensures r == Climb(b)
  {
    if r.kind.CanEscalate? {
      var a :| r == Climb(a);
      AccountIdsDistinct(a, b);
    } else {
      var a, c :| r == Hop(a, c);
      AccountIdsDistinct(c, b);
    }
  }

  lemma PathEndsWithClimb(w: Weights, p: seq<Rel>, a: Id, b: Id)
    requires HostRels(w) && IsPath(w, p, Foothold(a), Root(b))
    ensures p != [] && p[|p| - 1] == Climb(b) && Climb(b) in w && IsPath(w, p[..|p| - 1], Foothold(a), Foothold(b))
  {
    AccountIdsDistinct(a, b);
    assert p != [];
    PathInit(w, p, Foothold(a), Root(b));
    LastIsClimb(w, p[|p| - 1], b);
  }

  lemma LastIsHop(w: Weights, r: Rel, b: Id) returns (x: Id)
    requires HostRels(w) && r in w && r.dst == Foothold(b)
    ensures r == Hop(x, b)
  {
    if r.kind.CanEscalate? {
      var a :| r == Climb(a);
      AccountIdsDistinct(b, a);
    } else {
      var a, c :| r == Hop(a, c);
      AccountIdsDistinct(c, b);
      x := a;
    }
  }

  lemma PathEndsWithHop(w: Weights, p: seq<Rel>, a: Id, b: Id) returns (x: Id)
    requires HostRels(w) && |p| > 1 && IsPath(w, p[..|p| - 1], Foothold(a), Foothold(b))
    ensures p[|p| - 2] == Hop(x, b) && IsPath(w, p[..|p| - 2], Foothold(a), Root(x))
    ensures Hop(x, b) in w && p == p[..|p| - 2] + [Hop(x, b), p[|p| - 1]]
  {
    var front := p[..|p| - 1];
    x := LastIsHop(w, front[|front| - 1], b);
    PathInit(w, front, Foothold(a), Foothold(b));
    assert front[..|front| - 1] == p[..|p| - 2];
  }

  /** Every path from a foothold to a root is the path of exactly one host chain. */
  lemma {:induction false} PathIsChain(w: Weights, p: seq<Rel>, a: Id, b: Id) returns (hosts: seq<Id>)
    requires HostRels(w) && IsPath(w, p, Foothold(a), Root(b))
    ensures IsChain(w, hosts) && hosts[0] == a && hosts[|hosts| - 1] == b && ChainPath(hosts) == p
    decreases |p|
  {
    var n := |p| - 1;
    PathEndsWithClimb(w, p, a, b);
    if n == 0 {
      AccountIdsDistinct(a, b);
      hosts := [a];
    } else {
      var x := PathEndsWithHop(w, p, a, b);
      var before := PathIsChain(w, p[..n - 1], a, x);
      ChainExtend(w, before, b);
      hosts := before + [b];
    }
  }

  // ---------- in terms of what the scans reported ----------

  /** A run of hosts from a to b, each with a privilege-escalation finding, neighbours
      sharing a leaked credential. */
  ghost predicate ReportedChain(ops: seq<Op>, hosts: seq<Id>) {
    && hosts != []
    && (forall i :: 0 <= i < |hosts| ==> hosts[i] in Escalatable(ops))
    && (forall i :: 0 < i < |hosts| ==> Shares(Exposed(ops), hosts[i - 1], hosts[i]))
  }

  lemma ClimbsAreFindings(ops: seq<Op>, a: Id)
    requires AutoOnly(ops)
    ensures Climb(a) in WeightsOf(Run(ops)) <==> a in Escalatable(ops)
  {
    DerivedShape(ops);
    var g := Run(ops);
    assert Climb(a) in WeightsOf(g) <==> HostEdge(a) in g.escalations;
    if HostEdge(a) in g.escalations {
      AccountIdsDistinct(a, g.accounts[Foothold(a)].assetId);
    }
  }

  lemma ChainsAreReported(ops: seq<Op>, hosts: seq<Id>)
    requires AutoOnly(ops) && Pending(ops) == {}
    ensures IsChain(WeightsOf(Run(ops)), hosts) <==> ReportedChain(ops, hosts)
  {
    var w := WeightsOf(Run(ops));
    forall i | 0 <= i < |hosts| ensures Climb(hosts[i]) in w <==> hosts[i] in Escalatable(ops) {
      ClimbsAreFindings(ops, hosts[i]);
    }
    forall i | 0 < i < |hosts|
      ensures Hop(hosts[i - 1], hosts[i]) in w <==> Shares(Exposed(ops), hosts[i - 1], hosts[i])
    {
      ReuseClosure(ops, hosts[i - 1], hosts[i]);
      assert Hop(hosts[i - 1], hosts[i]) in w <==> (Root(hosts[i - 1]), Foothold(hosts[i])) in Run(ops).reuses;
    }
  }

  lemma HostPathAlternates(w: Weights, p: seq<Rel>, a: Id, b: Id)
    requires HostRels(w) && IsPath(w, p, Foothold(a), Root(b))
    ensures |p| % 2 == 1 && Alternates(p)
  {
    var hosts := PathIsChain(w, p, a, b);
    ChainAlternates(hosts);
    assert |p| == 2 * (|hosts| - 1) + 1;
  }

  /** Paths from foothold@a to root@b alternate escalation and reuse and have odd length. */
  lemma PathsAlternate(ops: seq<Op>, a: Id, b: Id, p: seq<Rel>)
    requires AutoOnly(ops) && IsPath(WeightsOf(Run(ops)), p, Foothold(a), Root(b))
    ensures |p| % 2 == 1 && Alternates(p)
  {
    DerivedHostRels(ops);
    HostPathAlternates(WeightsOf(Run(ops)), p, a, b);
  }

  /** One exists exactly when the scans reported a chain of hosts from a to b. */
  lemma PathsAreReportedChains(ops: seq<Op>, a: Id, b: Id)
    requires AutoOnly(ops) && Pending(ops) == {}
    ensures (exists p :: IsPath(WeightsOf(Run(ops)), p, Foothold(a), Root(b))) <==>
              exists hosts :: ReportedChain(ops, hosts) && hosts[0] == a && hosts[|hosts| - 1] == b
  {
    var w := WeightsOf(Run(ops));
    if p :| IsPath(w, p, Foothold(a), Root(b)) {
      DerivedHostRels(ops);
      var hosts := PathIsChain(w, p, a, b);
      ChainsAreReported(ops, hosts);
    }
    if hosts :| ReportedChain(ops, hosts) && hosts[0] == a && hosts[|hosts| - 1] == b {
      ChainsAreReported(ops, hosts);
      ChainIsPath(w, hosts);
    }
  }

  /** The least effort from foothold@a to root@b is the least total over reported host
      chains from a to b: no chain is cheaper, and one attains it. */
  lemma LeastEffortIsLeastChain(ops: seq<Op>, a: Id, b: Id, p: seq<Rel>)
    requires AutoOnly(ops) && Pending(ops) == {}
    requires Optimal(WeightsOf(Run(ops)), p, Foothold(a), Root(b))
    ensures var w := WeightsOf(Run(ops));
            && (forall hosts :: IsChain(w, hosts) && hosts[0] == a && hosts[|hosts| - 1] == b ==>
                  Cost(w, p) <= ChainCost(w, hosts))
            && exists hosts :: && IsChain(w, hosts) && ReportedChain(ops, hosts) && hosts[0] == a
                               && hosts[|hosts| - 1] == b && ChainCost(w, hosts) == Cost(w, p)
  {
    var w := WeightsOf(Run(ops));
    DerivedHostRels(ops);
    forall hosts | IsChain(w, hosts) && hosts[0] == a && hosts[|hosts| - 1] == b
      ensures Cost(w, p) <= ChainCost(w, hosts)
    {
      ChainIsPath(w, hosts);
    }
    var hosts := PathIsChain(w, p, a, b);
    ChainIsPath(w, hosts);
    ChainsAreReported(ops, hosts);
  }
}
