/** How the minimum effort between two accounts changes while scans keep running. */
module EffortOverTime {
  import opened RiskScore
  import opened PrivilegeGraph
  import opened EscalationPath

  /** Every relationship of g is still there in g', and costs no more. */
  ghost predicate NoDearer(g: Graph, g': Graph) {
    forall r :: HasRel(g, r) ==> HasRel(g', r) && RelWeight(g', r) <= RelWeight(g, r)
  }

  lemma DeriveNoDearer(g: Graph, a: Id, cwe: string, technique: string, risk: real)
    ensures NoDearer(g, DeriveEscalation(g, a, cwe, technique, risk))
  {
    var edges := KeepCheapest(g.escalations, HostEdge(a), Offer(cwe, technique, risk));
    assert forall k :: k in g.escalations ==> k in edges && edges[k].weight <= g.escalations[k].weight;
  }

  lemma JoinNoDearer(g: Graph, fp: string, weight: real)
    ensures NoDearer(g, JoinCredential(g, fp, weight))
  {
    var g' := JoinCredential(g, fp, weight);
    assert forall k :: k in g.reuses ==> k in g'.reuses && g'.reuses[k] == g.reuses[k];
  }

  lemma StepNoDearer(g: Graph, op: Op)
    requires !op.Manual()
    ensures NoDearer(g, Step(g, op))
  {
    match op
    case OpAsset(_, _) =>
    case OpDerive(a, cwe, technique, risk) => DeriveNoDearer(g, a, cwe, technique, risk);
    case OpRecord(_, _, _, _) =>
    case OpJoin(fp, risk) => JoinNoDearer(g, fp, AutoReuseWeight(risk));
  }

  lemma {:induction false} RunNoDearer(ops: seq<Op>, more: seq<Op>)
    requires AutoOnly(more)
    ensures NoDearer(Run(ops), Run(ops + more))
  {
    if more == [] {
      assert ops + more == ops;
    } else {
      var n := |more| - 1;
      RunNoDearer(ops, more[..n]);
      assert (ops + more)[..|ops + more| - 1] == ops + more[..n];
      assert !more[n].Manual() && (ops + more)[|ops + more| - 1] == more[n];
      StepNoDearer(Run(ops + more[..n]), more[n]);
    }
  }

  lemma {:induction false} CostNoDearer(g: Graph, g': Graph, p: seq<Rel>)
    requires NoDearer(g, g') && forall i :: 0 <= i < |p| ==> HasRel(g, p[i])
    ensures forall i :: 0 <= i < |p| ==> HasRel(g', p[i])
    ensures Cost(WeightsOf(g'), p) <= Cost(WeightsOf(g), p)
  {
    if p == [] {
    } else {
      CostNoDearer(g, g', p[..|p| - 1]);
    }
  }

  /** Over any further run of scans, whatever the graph was before them: every path
      between two accounts stays a path and gets no dearer, so the least effort between
      them never rises above the cost of any earlier path. */
  lemma EffortNeverRisesOverTime(ops: seq<Op>, more: seq<Op>, p: seq<Rel>, q: seq<Rel>, s: Id, t: Id)
    requires AutoOnly(more)
    requires IsPath(WeightsOf(Run(ops)), p, s, t)
    ensures IsPath(WeightsOf(Run(ops + more)), p, s, t)
    ensures Cost(WeightsOf(Run(ops + more)), p) <= Cost(WeightsOf(Run(ops)), p)
    ensures Optimal(WeightsOf(Run(ops + more)), q, s, t) ==>
              Cost(WeightsOf(Run(ops + more)), q) <= Cost(WeightsOf(Run(ops)), p)
  {
    RunNoDearer(ops, more);
    assert forall i :: 0 <= i < |p| ==> HasRel(Run(ops), p[i]);
    CostNoDearer(Run(ops), Run(ops + more), p);
  }
}
