/** The escalation edge of a host after any run of scans: the cheapest finding is kept. */
module CheapestEscalation {
  import opened RiskScore
  import opened PrivilegeGraph

  /** The first offer of least weight. */
  predicate EarliestCheapest(offers: seq<Escalation>, k: int) {
    && 0 <= k < |offers|
    && (forall j :: 0 <= j < k ==> offers[j].weight > offers[k].weight)
    && (forall j :: 0 <= j < |offers| ==> offers[j].weight >= offers[k].weight)
  }

  ghost predicate EdgeTracks(offers: seq<Escalation>, edges: map<(Id, Id), Escalation>, k: (Id, Id)) {
    if offers == [] then k !in edges
    else k in edges && exists i :: EarliestCheapest(offers, i) && edges[k] == offers[i]
  }

  lemma KeepCheapestTracks(offers: seq<Escalation>, edges: map<(Id, Id), Escalation>, k: (Id, Id), found: Escalation)
    requires EdgeTracks(offers, edges, k)
    requires found.auto && forall j :: 0 <= j < |offers| ==> offers[j].auto
    ensures EdgeTracks(offers + [found], KeepCheapest(edges, k, found), k)
  {
    var offers' := offers + [found];
    if offers == [] {
      assert EarliestCheapest(offers', 0);
    } else {
      var i :| EarliestCheapest(offers, i) && edges[k] == offers[i];
      if edges[k].weight > found.weight {
        assert EarliestCheapest(offers', |offers|);
      } else {
        assert EarliestCheapest(offers', i) && offers'[i] == offers[i];
      }
    }
  }

  /** Nobody writes an escalation edge by hand; anything else may happen. */
  predicate NoManualEscalations(ops: seq<Op>) {
    forall i :: 0 <= i < |ops| ==> !ops[i].OpAddEscalation?
  }

  lemma StepEscalations(g: Graph, op: Op)
    requires !op.OpAddEscalation?
    ensures Step(g, op).escalations ==
              if op.OpDerive? && op.assetId in g.assets
              then KeepCheapest(g.escalations, HostEdge(op.assetId), Offer(op.cwe, op.technique, op.risk))
              else g.escalations
  {
    match op
    case OpAsset(_, _) =>
    case OpAccount(_, _, _, _) =>
    case OpAddReuse(_, _, _) =>
    case OpDerive(_, _, _, _) =>
    case OpRecord(_, _, _, _) =>
    case OpJoin(_, _) =>
  }

  /** The escalation edges change only by a finding of a projected host. */
  lemma EscalationStep(ops: seq<Op>)
    requires NoManualEscalations(ops) && ops != []
    ensures var g, op := Run(ops[..|ops| - 1]), ops[|ops| - 1];
            Run(ops).escalations ==
              if op.OpDerive? && op.assetId in g.assets
              then KeepCheapest(g.escalations, HostEdge(op.assetId), Offer(op.cwe, op.technique, op.risk))
              else g.escalations
  {
    assert !ops[|ops| - 1].OpAddEscalation?;
    StepEscalations(Run(ops[..|ops| - 1]), ops[|ops| - 1]);
  }

  lemma OtherEdgeStays(edges: map<(Id, Id), Escalation>, a: Id, b: Id, found: Escalation)
    requires a != b
    ensures var edges' := KeepCheapest(edges, HostEdge(b), found);
            && (HostEdge(a) in edges' <==> HostEdge(a) in edges)
            && (HostEdge(a) in edges ==> edges'[HostEdge(a)] == edges[HostEdge(a)])
  {
    AccountIdsDistinct(a, b);
  }

  predicate Weighed(o: Escalation) {
    o.auto && o.risk.Some? && o.weight == AutoEscalationWeight(o.risk.value)
  }

  lemma {:induction false} OffersWeighed(ops: seq<Op>, a: Id)
    ensures forall j :: 0 <= j < |Offers(ops, a)| ==> Weighed(Offers(ops, a)[j])
  {
    if ops == [] {
    } else {
      OffersWeighed(ops[..|ops| - 1], a);
    }
  }

  lemma {:induction false} EdgeTracksRun(ops: seq<Op>, a: Id)
    requires NoManualEscalations(ops)
    ensures EdgeTracks(Offers(ops, a), Run(ops).escalations, HostEdge(a))
  {
    if ops == [] {
    } else {
      var before, op := ops[..|ops| - 1], ops[|ops| - 1];
      var g := Run(before);
      EdgeTracksRun(before, a);
      EscalationStep(ops);
      if op.OpDerive? && op.assetId in g.assets {
        var found := Offer(op.cwe, op.technique, op.risk);
        if op.assetId == a {
          OffersWeighed(before, a);
          KeepCheapestTracks(Offers(before, a), g.escalations, HostEdge(a), found);
        } else {
          OtherEdgeStays(g.escalations, a, op.assetId, found);
        }
      }
    }
  }

  /** After any run without manual escalation edges a host has an escalation edge exactly
      when it had a finding; the edge carries technique, CWE and risk of the earliest of the easiest findings. */
  lemma CheapestEscalationKept(ops: seq<Op>, a: Id)
    requires NoManualEscalations(ops)
    ensures HostEdge(a) in Run(ops).escalations <==> Offers(ops, a) != []
    ensures HostEdge(a) in Run(ops).escalations ==>
              exists i :: EarliestCheapest(Offers(ops, a), i) && Run(ops).escalations[HostEdge(a)] == Offers(ops, a)[i]
  {
    EdgeTracksRun(ops, a);
  }

  /** Its weight always belongs to its stored risk, and is the weight of the greatest
      risk reported for the host. */
  lemma WeightOfWorstFinding(ops: seq<Op>, a: Id, m: int)
    requires NoManualEscalations(ops) && 0 <= m < |Offers(ops, a)|
    requires Offers(ops, a)[m].risk.Some?
    requires forall o :: o in Offers(ops, a) && o.risk.Some? ==> o.risk.value <= Offers(ops, a)[m].risk.value
    ensures HostEdge(a) in Run(ops).escalations
    ensures var e := Run(ops).escalations[HostEdge(a)];
            && e.risk.Some? && e.weight == AutoEscalationWeight(e.risk.value)
            && e.weight == AutoEscalationWeight(Offers(ops, a)[m].risk.value)
  {
    EdgeTracksRun(ops, a);
    OffersWeighed(ops, a);
    var offers := Offers(ops, a);
    var i :| EarliestCheapest(offers, i) && Run(ops).escalations[HostEdge(a)] == offers[i];
    assert offers[i] in offers && offers[i].weight <= offers[m].weight;
    WeightsAntitone(offers[i].risk.value, offers[m].risk.value);
  }
}
