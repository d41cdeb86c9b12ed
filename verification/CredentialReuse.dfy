/** Credential reuse between hosts, as scans derive it: closure, order and count. */
module CredentialReuse {
  import opened RiskScore
  import opened PrivilegeGraph
  import opened DerivedGraph

  lemma ReuseEdgeIsShared(ops: seq<Op>, k: (Id, Id)) returns (x: Id, y: Id)
    requires AutoOnly(ops) && k in Run(ops).reuses
    ensures k == (Root(x), Foothold(y)) && Shares(Exposed(ops), x, y)
  {
    DerivedShape(ops);
    var g := Run(ops);
    x, y := g.accounts[k.0].assetId, g.accounts[k.1].assetId;
  }

  lemma SharedHaveEdge(exposed: set<(Id, string)>, g: Graph, x: Id, y: Id)
    requires ReuseShape(exposed, {}, g) && Shares(exposed, x, y)
    ensures (Root(x), Foothold(y)) in g.reuses
  {
  }

  /** A credential-reuse edge joins root of x to the foothold of y exactly when the two
      hosts expose a common fingerprint, once no join is outstanding. An outstanding
      join can only leave edges missing. */
  lemma ReuseClosure(ops: seq<Op>, x: Id, y: Id)
    requires AutoOnly(ops)
    ensures (Root(x), Foothold(y)) in Run(ops).reuses ==> Shares(Exposed(ops), x, y)
    ensures Pending(ops) == {} && Shares(Exposed(ops), x, y) ==> (Root(x), Foothold(y)) in Run(ops).reuses
  {
    DerivedShape(ops);
    if (Root(x), Foothold(y)) in Run(ops).reuses {
      var x', y' := ReuseEdgeIsShared(ops, (Root(x), Foothold(y)));
      AccountIdsDistinct(x, x');
      AccountIdsDistinct(y, y');
    } else if Pending(ops) == {} && Shares(Exposed(ops), x, y) {
      DerivedShape(ops);
      SharedHaveEdge(Exposed(ops), Run(ops), x, y);
    }
  }

  /** Every recorded credential belonged to an asset that was already projected. */
  ghost predicate RecordsProjected(ops: seq<Op>) {
    forall i :: 0 <= i < |ops| && ops[i].OpRecord? ==> ops[i].assetId in Run(ops[..i]).assets
  }

  predicate IsRecord(op: Op, a: Id, fp: string) {
    op.OpRecord? && op.assetId == a && op.fp == fp
  }

  ghost predicate Recorded(ops: seq<Op>, a: Id, fp: string) {
    exists i :: 0 <= i < |ops| && IsRecord(ops[i], a, fp)
  }

  lemma RecordsSnoc(ops: seq<Op>)
    requires RecordsProjected(ops) && ops != []
    ensures RecordsProjected(ops[..|ops| - 1])
    ensures ops[|ops| - 1].OpRecord? ==> ops[|ops| - 1].assetId in Run(ops[..|ops| - 1]).assets
  {
    var before := ops[..|ops| - 1];
    forall i | 0 <= i < |before| && before[i].OpRecord? ensures before[i].assetId in Run(before[..i]).assets {
      assert before[..i] == ops[..i] && before[i] == ops[i];
    }
  }

  lemma RecordedSnoc(ops: seq<Op>, a: Id, fp: string)
    requires ops != []
    ensures Recorded(ops, a, fp) <==> Recorded(ops[..|ops| - 1], a, fp) || IsRecord(ops[|ops| - 1], a, fp)
  {
    var before := ops[..|ops| - 1];
    assert forall i :: 0 <= i < |before| ==> before[i] == ops[i];
  }

  lemma {:induction false} ExposedAreRecorded(ops: seq<Op>, a: Id, fp: string)
    requires RecordsProjected(ops)
    ensures (a, fp) in Exposed(ops) <==> Recorded(ops, a, fp)
  {
    if ops == [] {
    } else {
      RecordsSnoc(ops);
      RecordedSnoc(ops, a, fp);
      ExposedAreRecorded(ops[..|ops| - 1], a, fp);
    }
  }

  lemma SameExposureSameReuse(ops: seq<Op>, ops': seq<Op>)
    requires AutoOnly(ops) && AutoOnly(ops') && Pending(ops') == {}
    requires forall a, fp :: (a, fp) in Exposed(ops) <==> (a, fp) in Exposed(ops')
    ensures Run(ops).reuses.Keys <= Run(ops').reuses.Keys
  {
    forall k | k in Run(ops).reuses ensures k in Run(ops').reuses {
      var x, y := ReuseEdgeIsShared(ops, k);
      ReuseClosure(ops', x, y);
    }
  }

  /** Two settled runs that recorded the same credentials, in any order and with any
      repetition, have the same credential-reuse edges. */
  lemma ReuseOrderIrrelevant(ops: seq<Op>, ops': seq<Op>)
    requires AutoOnly(ops) && AutoOnly(ops') && RecordsProjected(ops) && RecordsProjected(ops')
    requires Pending(ops) == {} && Pending(ops') == {}
    requires forall a, fp :: Recorded(ops, a, fp) <==> Recorded(ops', a, fp)
    ensures Run(ops).reuses.Keys == Run(ops').reuses.Keys
  {
    forall a, fp ensures (a, fp) in Exposed(ops) <==> (a, fp) in Exposed(ops') {
      ExposedAreRecorded(ops, a, fp);
      ExposedAreRecorded(ops', a, fp);
    }
    SameExposureSameReuse(ops, ops');
    SameExposureSameReuse(ops', ops);
  }

  // ---------- the weight of a reuse edge ----------

  /** Operation i is a join that matches the ordered pair of hosts. */
  ghost predicate JoinMatches(ops: seq<Op>, i: int, x: Id, y: Id) {
    && 0 <= i < |ops| && ops[i].OpJoin? && x != y
    && (x, ops[i].fp) in Exposed(ops[..i]) && (y, ops[i].fp) in Exposed(ops[..i])
  }

  lemma JoinRow(ops: seq<Op>, fp: string, x: Id, y: Id)
    requires AutoOnly(ops)
    ensures (Root(x), Foothold(y)) in Sharing(Run(ops), fp) <==>
              x != y && (x, fp) in Exposed(ops) && (y, fp) in Exposed(ops)
  {
    var g, k := Run(ops), (Root(x), Foothold(y));
    DerivedShape(ops);
    SharingIsExposure(Exposed(ops), Hosts(ops), g, fp);
    if k in Sharing(g, fp) {
      AccountIdsDistinct(x, g.accounts[k.0].assetId);
      AccountIdsDistinct(y, g.accounts[k.1].assetId);
    }
  }

  lemma StepReuses(g: Graph, op: Op)
    requires !op.Manual()
    ensures Step(g, op).reuses ==
              if op.OpJoin? then MergeAll(g.reuses, Sharing(g, op.fp), NewReuse(g, op.fp, AutoReuseWeight(op.risk)))
              else g.reuses
  {
    match op
    case OpAsset(_, _) =>
    case OpDerive(_, _, _, _) =>
    case OpRecord(_, _, _, _) =>
    case OpJoin(_, _) =>
  }

  /** Only joins add reuse edges, and they keep those there are. */
  lemma ReuseStep(ops: seq<Op>)
    requires AutoOnly(ops) && ops != []
    ensures var g, op := Run(ops[..|ops| - 1]), ops[|ops| - 1];
            Run(ops).reuses ==
              if op.OpJoin? then MergeAll(g.reuses, Sharing(g, op.fp), NewReuse(g, op.fp, AutoReuseWeight(op.risk)))
              else g.reuses
  {
    assert !ops[|ops| - 1].Manual();
    StepReuses(Run(ops[..|ops| - 1]), ops[|ops| - 1]);
  }

  lemma OldEdgeIsKept(ops: seq<Op>, k: (Id, Id))
    requires AutoOnly(ops) && ops != [] && k in Run(ops[..|ops| - 1]).reuses
    ensures k in Run(ops).reuses && Run(ops).reuses[k] == Run(ops[..|ops| - 1]).reuses[k]
  {
    ReuseStep(ops);
  }

  lemma LastJoinLinks(ops: seq<Op>, x: Id, y: Id)
    requires AutoOnly(ops) && ops != [] && ops[|ops| - 1].OpJoin?
    requires (Root(x), Foothold(y)) in Sharing(Run(ops[..|ops| - 1]), ops[|ops| - 1].fp)
    ensures (Root(x), Foothold(y)) in Run(ops).reuses
  {
    ReuseStep(ops);
  }

  lemma {:induction false} MatchedHasEdge(ops: seq<Op>, i: int, x: Id, y: Id)
    requires AutoOnly(ops) && JoinMatches(ops, i, x, y)
    ensures (Root(x), Foothold(y)) in Run(ops).reuses
  {
    var n := |ops| - 1;
    if i == n {
      JoinRow(ops[..n], ops[n].fp, x, y);
      LastJoinLinks(ops, x, y);
    } else {
      assert ops[..n][..i] == ops[..i];
      MatchedHasEdge(ops[..n], i, x, y);
      OldEdgeIsKept(ops, (Root(x), Foothold(y)));
    }
  }

  lemma NewEdgeIsRow(ops: seq<Op>, k: (Id, Id))
    requires AutoOnly(ops) && ops != [] && k in Run(ops).reuses && k !in Run(ops[..|ops| - 1]).reuses
    ensures var op := ops[|ops| - 1];
            op.OpJoin? && k in Sharing(Run(ops[..|ops| - 1]), op.fp)
                && Run(ops).reuses[k].weight == AutoReuseWeight(op.risk)
  {
    ReuseStep(ops);
  }

  lemma NewEdgeIsMatched(ops: seq<Op>, x: Id, y: Id)
    requires AutoOnly(ops) && ops != [] && (Root(x), Foothold(y)) in Run(ops).reuses
    requires (Root(x), Foothold(y)) !in Run(ops[..|ops| - 1]).reuses
    ensures JoinMatches(ops, |ops| - 1, x, y)
    ensures Run(ops).reuses[(Root(x), Foothold(y))].weight == AutoReuseWeight(ops[|ops| - 1].risk)
  {
    NewEdgeIsRow(ops, (Root(x), Foothold(y)));
    JoinRow(ops[..|ops| - 1], ops[|ops| - 1].fp, x, y);
  }

  /** The weight of a reuse edge is fixed by the first join that matched its two hosts. */
  lemma {:induction false} WeightOfFirstJoin(ops: seq<Op>, x: Id, y: Id) returns (i: nat)
    requires AutoOnly(ops) && (Root(x), Foothold(y)) in Run(ops).reuses
    ensures JoinMatches(ops, i, x, y) && forall j :: 0 <= j < i ==> !JoinMatches(ops, j, x, y)
    ensures Run(ops).reuses[(Root(x), Foothold(y))].weight == AutoReuseWeight(ops[i].risk)
  {
    var n := |ops| - 1;
    var before := ops[..n];
    if (Root(x), Foothold(y)) in Run(before).reuses {
      i := WeightOfFirstJoin(before, x, y);
      OldEdgeIsKept(ops, (Root(x), Foothold(y)));
      forall j | 0 <= j <= i ensures JoinMatches(ops, j, x, y) <==> JoinMatches(before, j, x, y) {
        assert ops[..j] == before[..j];
      }
    } else {
      NewEdgeIsMatched(ops, x, y);
      i := n;
      forall j | 0 <= j < n ensures !JoinMatches(ops, j, x, y) {
        if JoinMatches(ops, j, x, y) {
          assert ops[..j] == before[..j];
          MatchedHasEdge(before, j, x, y);
          assert false;
        }
      }
    }
  }

  // ---------- the reported count ----------

  function HostsExposing(ops: seq<Op>, fp: string): set<Id> {
    set e | e in Exposed(ops) && e.1 == fp :: e.0
  }

  function OrderedPairs(hosts: set<Id>): set<(Id, Id)> {
    set x, y | x in hosts && y in hosts && x != y :: (x, y)
  }

  lemma {:induction false} ImageSize<A, B>(s: set<A>, image: set<B>, f: A -> B)
    requires forall x, y :: x in s && y in s && f(x) == f(y) ==> x == y
    requires forall x :: x in s ==> f(x) in image
    requires forall b :: b in image ==> exists x :: x in s && f(x) == b
    ensures |image| == |s|
  {
    if s == {} {
      assert image == {};
    } else {
      var a :| a in s;
      var s', image' := s - {a}, image - {f(a)};
      forall b | b in image' ensures exists x :: x in s' && f(x) == b {
        var x :| x in s && f(x) == b;
        assert x in s';
      }
      ImageSize(s', image', f);
    }
  }

  function PairsWith(rest: set<Id>, h: Id): set<(Id, Id)> {
    (set y | y in rest :: (h, y)) + (set x | x in rest :: (x, h))
  }

  lemma RowAndColumn(rest: set<Id>, h: Id)
    requires h !in rest
    ensures |PairsWith(rest, h)| == 2 * |rest|
  {
    var from := set y | y in rest :: (h, y);
    var to := set x | x in rest :: (x, h);
    ImageSize(rest, from, y => (h, y));
    ImageSize(rest, to, x => (x, h));
    assert PairsWith(rest, h) == from + to && from !! to;
  }

  lemma SplitPairs(hosts: set<Id>, h: Id)
    requires h in hosts
    ensures |OrderedPairs(hosts)| == |OrderedPairs(hosts - {h})| + |PairsWith(hosts - {h}, h)|
  {
    assert OrderedPairs(hosts) == OrderedPairs(hosts - {h}) + PairsWith(hosts - {h}, h);
    assert OrderedPairs(hosts - {h}) !! PairsWith(hosts - {h}, h);
  }

  lemma SquareStep(n: nat)
    ensures n * (n - 1) + n + n == (n + 1) * n
  {
  }

  lemma {:induction false} OrderedPairsCount(hosts: set<Id>)
    ensures |OrderedPairs(hosts)| == |hosts| * (|hosts| - 1)
  {
    if hosts == {} {
      assert OrderedPairs(hosts) == {};
    } else {
      var h :| h in hosts;
      var rest := hosts - {h};
      OrderedPairsCount(rest);
      RowAndColumn(rest, h);
      SplitPairs(hosts, h);
      SquareStep(|rest|);
    }
  }

  lemma SharingRow(ops: seq<Op>, fp: string, k: (Id, Id))
    requires AutoOnly(ops)
    ensures k in Sharing(Run(ops), fp) <==>
              exists p :: p in OrderedPairs(HostsExposing(ops, fp)) && (Root(p.0), Foothold(p.1)) == k
  {
    DerivedShape(ops);
    var g := Run(ops);
    SharingIsExposure(Exposed(ops), Hosts(ops), g, fp);
    if k in Sharing(g, fp) {
      var p := (g.accounts[k.0].assetId, g.accounts[k.1].assetId);
      assert (p.0, fp) in Exposed(ops) && (p.1, fp) in Exposed(ops);
      assert p in OrderedPairs(HostsExposing(ops, fp));
    }
    forall p | p in OrderedPairs(HostsExposing(ops, fp)) && (Root(p.0), Foothold(p.1)) == k
      ensures k in Sharing(g, fp)
    {
      assert (p.0, fp) in Exposed(ops) && (p.1, fp) in Exposed(ops);
    }
  }

  /** The number a credential derivation reports: k hosts exposing the fingerprint make
      k * (k - 1) matched pairs. */
  lemma ReuseCount(ops: seq<Op>, fp: string)
    requires AutoOnly(ops)
    ensures var k := |HostsExposing(ops, fp)|; |Sharing(Run(ops), fp)| == k * (k - 1)
  {
    var pairs := OrderedPairs(HostsExposing(ops, fp));
    OrderedPairsCount(HostsExposing(ops, fp));
    var f := (p: (Id, Id)) => (Root(p.0), Foothold(p.1));
    forall p, q | p in pairs && q in pairs && f(p) == f(q) ensures p == q {
      AccountIdsDistinct(p.0, q.0);
      AccountIdsDistinct(p.1, q.1);
    }
    forall k | k in Sharing(Run(ops), fp) ensures exists p :: p in pairs && f(p) == k {
      SharingRow(ops, fp, k);
      var p :| p in pairs && (Root(p.0), Foothold(p.1)) == k;
      assert f(p) == k;
    }
    forall p | p in pairs ensures f(p) in Sharing(Run(ops), fp) {
      SharingRow(ops, fp, f(p));
    }
    ImageSize(pairs, Sharing(Run(ops), fp), f);
  }
}
