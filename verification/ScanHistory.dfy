/** Scans by many workers at once. Whatever the interleaving of their graph writes, what
    finished scans leave in the privilege graph is determined by their findings, but for
    the reuse weights, which the first matching join decides. */
module ScanHistory {
  import opened Prelude
  import opened Assets
  import opened RiskScore
  import opened PrivilegeGraph
  import opened DerivedGraph
  import opened CredentialReuse
  import opened CheapestEscalation
  import opened HostChains
  import opened EscalationPath
  import opened ScanEngine

  /** A finished scan and the findings it stored. */
  datatype ScanRecord = ScanRecord(assetId: string, node: AssetNode, findings: seq<ScanEngine.Finding>)

  function OpsOfScan(s: ScanRecord): seq<Op> {
    ScanOps(s.assetId, s.node, s.findings)
  }

  // ---------- interleavings ----------

  /** The writes of scan k, in order. */
  function Project(ops: seq<Op>, owner: seq<nat>, k: nat): seq<Op>
    requires |owner| == |ops|
  {
    if ops == [] then [] else
    var n := |ops| - 1;
    Project(ops[..n], owner[..n], k) + if owner[n] == k then [ops[n]] else []
  }

  /** The operations are those of the scans, each scan's own in its order. */
  ghost predicate Interleaves(scans: seq<ScanRecord>, ops: seq<Op>, owner: seq<nat>) {
    && |owner| == |ops|
    && (forall i :: 0 <= i < |ops| ==> owner[i] < |scans|)
    && (forall k: nat :: k < |scans| ==> Project(ops, owner, k) == OpsOfScan(scans[k]))
  }

  /** How many writes of scan k come before position i. */
  function Position(ops: seq<Op>, owner: seq<nat>, k: nat, i: nat): nat
    requires i <= |ops| == |owner|
  {
    |Project(ops[..i], owner[..i], k)|
  }

  lemma PositionStep(ops: seq<Op>, owner: seq<nat>, k: nat, i: nat)
    requires i < |ops| == |owner|
    ensures Position(ops, owner, k, i + 1) == Position(ops, owner, k, i) + if owner[i] == k then 1 else 0
  {
    assert ops[..i + 1][..i] == ops[..i] && owner[..i + 1][..i] == owner[..i];
  }

  lemma {:induction false} PositionMonotone(ops: seq<Op>, owner: seq<nat>, k: nat, i: nat, j: nat)
    requires i <= j <= |ops| == |owner|
    ensures Position(ops, owner, k, i) <= Position(ops, owner, k, j)
    ensures i < j && owner[i] == k ==> Position(ops, owner, k, i) < Position(ops, owner, k, j)
    decreases j
  {
    if i == j {
    } else {
      PositionMonotone(ops, owner, k, i, j - 1);
      PositionStep(ops, owner, k, j - 1);
    }
  }

  lemma {:induction false} AtPosition(ops: seq<Op>, owner: seq<nat>, i: nat)
    requires i < |ops| == |owner|
    ensures var p := Position(ops, owner, owner[i], i);
            p < |Project(ops, owner, owner[i])| && Project(ops, owner, owner[i])[p] == ops[i]
  {
    var n := |ops| - 1;
    if i == n {
    } else {
      AtPosition(ops[..n], owner[..n], i);
      assert ops[..n][..i] == ops[..i] && owner[..n][..i] == owner[..i];
    }
  }

  lemma {:induction false} Preimage(ops: seq<Op>, owner: seq<nat>, k: nat, p: nat) returns (i: nat)
    requires |ops| == |owner| && p < |Project(ops, owner, k)|
    ensures i < |ops| && owner[i] == k && Position(ops, owner, k, i) == p && ops[i] == Project(ops, owner, k)[p]
  {
    var n := |ops| - 1;
    if p < |Project(ops[..n], owner[..n], k)| {
      i := Preimage(ops[..n], owner[..n], k, p);
      assert ops[..n][..i] == ops[..i] && owner[..n][..i] == owner[..i];
    } else {
      i := n;
    }
  }

  lemma {:induction false} OpsOfInterleaving(scans: seq<ScanRecord>, ops: seq<Op>, owner: seq<nat>, op: Op)
    requires Interleaves(scans, ops, owner)
    ensures op in ops <==> exists s :: s in scans && op in OpsOfScan(s)
  {
    if op in ops {
      var i :| 0 <= i < |ops| && ops[i] == op;
      AtPosition(ops, owner, i);
      assert scans[owner[i]] in scans && op in OpsOfScan(scans[owner[i]]);
    }
    if s :| s in scans && op in OpsOfScan(s) {
      var k: nat :| k < |scans| && scans[k] == s;
      var p: nat :| p < |OpsOfScan(s)| && OpsOfScan(s)[p] == op;
      var i := Preimage(ops, owner, k, p);
    }
  }

  // ---------- orderly operations ----------

  predicate OnAsset(op: Op) {
    op.OpDerive? || op.OpRecord?
  }

  predicate IsProjection(op: Op, a: string) {
    op.OpAsset? && op.assetId == a
  }

  predicate IsJoin(op: Op, fp: string) {
    op.OpJoin? && op.fp == fp
  }

  ghost predicate ProjectedBefore(ops: seq<Op>, i: int)
    requires 0 <= i < |ops| && OnAsset(ops[i])
  {
    exists j :: 0 <= j < i && IsProjection(ops[j], ops[i].assetId)
  }

  ghost predicate JoinedAfter(ops: seq<Op>, i: int)
    requires 0 <= i < |ops| && ops[i].OpRecord?
  {
    exists j :: i < j < |ops| && IsJoin(ops[j], ops[i].fp)
  }

  /** Nothing manual, every asset projected before anything is derived on it, every
      recorded credential joined later. */
  ghost predicate Orderly(ops: seq<Op>) {
    && AutoOnly(ops)
    && (forall i :: 0 <= i < |ops| && OnAsset(ops[i]) ==> ProjectedBefore(ops, i))
    && (forall i :: 0 <= i < |ops| && ops[i].OpRecord? ==> JoinedAfter(ops, i))
  }

  ghost predicate JoinsFollow(ops: seq<Op>) {
    forall i :: 0 <= i < |ops| && ops[i].OpRecord? ==> JoinedAfter(ops, i)
  }

  lemma {:induction false} JoinsFollowConcat(xs: seq<Op>, ys: seq<Op>)
    requires JoinsFollow(xs) && JoinsFollow(ys)
    ensures JoinsFollow(xs + ys)
  {
    var zs := xs + ys;
    forall i | 0 <= i < |zs| && zs[i].OpRecord? ensures JoinedAfter(zs, i) {
      if i < |xs| {
        assert JoinedAfter(xs, i);
        var j :| i < j < |xs| && IsJoin(xs[j], xs[i].fp);
        assert IsJoin(zs[j], zs[i].fp);
      } else {
        assert JoinedAfter(ys, i - |xs|);
        var j :| i - |xs| < j < |ys| && IsJoin(ys[j], ys[i - |xs|].fp);
        assert IsJoin(zs[|xs| + j], zs[i].fp);
      }
    }
  }

  lemma {:induction false} FindingJoins(a: string, f: ScanEngine.Finding)
    ensures JoinsFollow(OpsOf(a, f))
  {
    var ops := OpsOf(a, f);
    forall i | 0 <= i < |ops| && ops[i].OpRecord? ensures JoinedAfter(ops, i) {
      assert IsJoin(ops[i + 1], ops[i].fp);
    }
  }

  lemma {:induction false} FindingsJoin(a: string, fs: seq<ScanEngine.Finding>)
    ensures JoinsFollow(OpsOfAll(a, fs))
  {
    if fs == [] {
    } else {
      FindingsJoin(a, fs[..|fs| - 1]);
      FindingJoins(a, fs[|fs| - 1]);
      JoinsFollowConcat(OpsOfAll(a, fs[..|fs| - 1]), OpsOf(a, fs[|fs| - 1]));
    }
  }

  lemma {:induction false} OpsOfFindings(a: string, fs: seq<ScanEngine.Finding>, op: Op)
    ensures op in OpsOfAll(a, fs) <==> exists f :: f in fs && op in OpsOf(a, f)
  {
    if fs == [] {
    } else {
      var n := |fs| - 1;
      OpsOfFindings(a, fs[..n], op);
      assert forall f :: f in fs <==> f in fs[..n] || f == fs[n];
    }
  }

  lemma {:induction false} OpsOnOneAsset(a: string, fs: seq<ScanEngine.Finding>, op: Op)
    requires op in OpsOfAll(a, fs)
    ensures !op.Manual() && !op.OpAsset? && (OnAsset(op) ==> op.assetId == a)
  {
    OpsOfFindings(a, fs, op);
  }

  lemma {:induction false} ScanIsOrderly(s: ScanRecord)
    ensures Orderly(OpsOfScan(s))
  {
    var first, rest, ops := [OpAsset(s.assetId, s.node)], OpsOfAll(s.assetId, s.findings), OpsOfScan(s);
    FindingsJoin(s.assetId, s.findings);
    JoinsFollowConcat(first, rest);
    forall i | 0 < i < |ops| ensures !ops[i].Manual() && (OnAsset(ops[i]) ==> ops[i].assetId == s.assetId) {
      assert ops[i] == rest[i - 1] && rest[i - 1] in rest;
      OpsOnOneAsset(s.assetId, s.findings, ops[i]);
    }
    forall i | 0 <= i < |ops| && OnAsset(ops[i]) ensures ProjectedBefore(ops, i) {
      assert IsProjection(ops[0], s.assetId);
    }
  }

  /** Order within a scan is order in the interleaving. */
  lemma {:induction false} SameOrder(ops: seq<Op>, owner: seq<nat>, i: nat, j: nat)
    requires i < |ops| == |owner| && j < |ops| && owner[i] == owner[j]
    ensures i < j <==> Position(ops, owner, owner[i], i) < Position(ops, owner, owner[j], j)
  {
    if i < j {
      PositionMonotone(ops, owner, owner[i], i, j);
    } else {
      PositionMonotone(ops, owner, owner[i], j, i);
    }
  }

  lemma {:induction false} InterleavedOp(scans: seq<ScanRecord>, ops: seq<Op>, owner: seq<nat>, i: nat)
    requires Interleaves(scans, ops, owner) && i < |ops|
    ensures !ops[i].Manual()
    ensures OnAsset(ops[i]) ==> ProjectedBefore(ops, i)
    ensures ops[i].OpRecord? ==> JoinedAfter(ops, i)
  {
    var k := owner[i];
    var own, p := OpsOfScan(scans[k]), Position(ops, owner, k, i);
    AtPosition(ops, owner, i);
    ScanIsOrderly(scans[k]);
    if OnAsset(ops[i]) {
      assert ProjectedBefore(own, p);
      var q: nat :| q < p && IsProjection(own[q], own[p].assetId);
      var j := Preimage(ops, owner, k, q);
      SameOrder(ops, owner, j, i);
    }
    if ops[i].OpRecord? {
      assert JoinedAfter(own, p);
      var q: nat :| p < q < |own| && IsJoin(own[q], own[p].fp);
      var j := Preimage(ops, owner, k, q);
      SameOrder(ops, owner, i, j);
    }
  }

  lemma {:induction false} InterleavingIsOrderly(scans: seq<ScanRecord>, ops: seq<Op>, owner: seq<nat>)
    requires Interleaves(scans, ops, owner)
    ensures Orderly(ops)
  {
    forall i | 0 <= i < |ops|
      ensures !ops[i].Manual()
      ensures OnAsset(ops[i]) ==> ProjectedBefore(ops, i)
      ensures ops[i].OpRecord? ==> JoinedAfter(ops, i)
    {
      InterleavedOp(scans, ops, owner, i);
    }
  }

  // ---------- orderly operations are tidy ----------

  ghost predicate Tidy(ops: seq<Op>) {
    AutoOnly(ops) && RecordsProjected(ops) && Pending(ops) == {}
  }

  lemma StepKeepsAsset(g: Graph, op: Op, a: string)
    requires a in g.assets
    ensures a in Step(g, op).assets
  {
  }

  lemma {:induction false} ProjectionStays(ops: seq<Op>, j: nat, a: string)
    requires j < |ops| && IsProjection(ops[j], a)
    ensures a in Run(ops).assets
  {
    var n := |ops| - 1;
    if j == n {
    } else {
      ProjectionStays(ops[..n], j, a);
      StepKeepsAsset(Run(ops[..n]), ops[n], a);
    }
  }

  /** The asset is there when something is derived on it. */
  lemma {:induction false} OrderlyProjected(ops: seq<Op>, i: nat)
    requires Orderly(ops) && i < |ops| && OnAsset(ops[i])
    ensures ops[i].assetId in Run(ops[..i]).assets
  {
    assert ProjectedBefore(ops, i);
    var j: nat :| j < i && IsProjection(ops[j], ops[i].assetId);
    assert ops[..i][j] == ops[j];
    ProjectionStays(ops[..i], j, ops[i].assetId);
  }

  lemma {:induction false} PendingIsUnjoined(ops: seq<Op>, fp: string) returns (i: nat)
    requires fp in Pending(ops)
    ensures i < |ops| && ops[i].OpRecord? && ops[i].fp == fp
    ensures forall j :: i < j < |ops| ==> !IsJoin(ops[j], fp)
  {
    var n := |ops| - 1;
    if fp in Pending(ops[..n]) && !(ops[n].OpRecord? && ops[n].fp == fp) {
      i := PendingIsUnjoined(ops[..n], fp);
      assert forall j :: i < j < n ==> !IsJoin(ops[..n][j], fp);
    } else {
      i := n;
    }
  }

  lemma {:induction false} OrderlyIsTidy(ops: seq<Op>)
    requires Orderly(ops)
    ensures Tidy(ops)
  {
    forall i | 0 <= i < |ops| && ops[i].OpRecord? ensures ops[i].assetId in Run(ops[..i]).assets {
      OrderlyProjected(ops, i);
    }
    if fp :| fp in Pending(ops) {
      var i := PendingIsUnjoined(ops, fp);
      assert false;
    }
  }

  predicate IsDerive(op: Op, a: string) {
    op.OpDerive? && op.assetId == a
  }

  /** Every escalation operation counts, once its asset is projected. */
  ghost predicate DerivesProjected(ops: seq<Op>) {
    forall i :: 0 <= i < |ops| && ops[i].OpDerive? ==> ops[i].assetId in Run(ops[..i]).assets
  }

  lemma {:induction false} DerivesSnoc(ops: seq<Op>)
    requires DerivesProjected(ops) && ops != []
    ensures DerivesProjected(ops[..|ops| - 1])
    ensures ops[|ops| - 1].OpDerive? ==> ops[|ops| - 1].assetId in Run(ops[..|ops| - 1]).assets
  {
    var before := ops[..|ops| - 1];
    forall i | 0 <= i < |before| && before[i].OpDerive? ensures before[i].assetId in Run(before[..i]).assets {
      assert before[..i] == ops[..i] && before[i] == ops[i];
    }
  }

  function OfferOf(op: Op): Escalation
    requires op.OpDerive?
  {
    Offer(op.cwe, op.technique, op.risk)
  }

  /** What the last operation adds to the offers. */
  lemma OffersSnoc(ops: seq<Op>, a: string, o: Escalation)
    requires DerivesProjected(ops) && ops != []
    ensures var n := |ops| - 1;
            o in Offers(ops, a) <==> o in Offers(ops[..n], a) || (IsDerive(ops[n], a) && OfferOf(ops[n]) == o)
  {
    DerivesSnoc(ops);
  }

  ghost predicate DeriveOffers(ops: seq<Op>, a: string, o: Escalation) {
    exists op :: op in ops && IsDerive(op, a) && OfferOf(op) == o
  }

  lemma DeriveOffersSnoc(ops: seq<Op>, a: string, o: Escalation)
    requires ops != []
    ensures var n := |ops| - 1;
            DeriveOffers(ops, a, o) <==> DeriveOffers(ops[..n], a, o) || (IsDerive(ops[n], a) && OfferOf(ops[n]) == o)
  {
    assert forall op :: op in ops <==> op in ops[..|ops| - 1] || op == ops[|ops| - 1];
  }

  lemma {:induction false} OffersAreDerives(ops: seq<Op>, a: string, o: Escalation)
    requires DerivesProjected(ops)
    ensures o in Offers(ops, a) <==> DeriveOffers(ops, a, o)
  {
    if ops == [] {
    } else {
      OffersSnoc(ops, a, o);
      DerivesSnoc(ops);
      OffersAreDerives(ops[..|ops| - 1], a, o);
      DeriveOffersSnoc(ops, a, o);
    }
  }

  lemma {:induction false} EscalatableIffOffers(ops: seq<Op>, a: string)
    ensures a in Escalatable(ops) <==> Offers(ops, a) != []
  {
    if ops == [] {
    } else {
      EscalatableIffOffers(ops[..|ops| - 1], a);
    }
  }

  // ---------- in terms of the findings ----------

  predicate Escalates(f: ScanEngine.Finding) {
    IsPrivEsc(f.cwe)
  }

  predicate LeaksCredential(f: ScanEngine.Finding, fp: string) {
    IsCredentialLeak(f.cwe) && f.credFp != "" && f.credFp == fp
  }

  /** A scan reported this finding on the host. */
  ghost predicate FoundOn(scans: seq<ScanRecord>, a: string, f: ScanEngine.Finding) {
    exists s :: s in scans && s.assetId == a && f in s.findings
  }

  ghost predicate EscalatableHost(scans: seq<ScanRecord>, a: string) {
    exists f :: FoundOn(scans, a, f) && Escalates(f)
  }

  ghost predicate LeakingHost(scans: seq<ScanRecord>, a: string, fp: string) {
    exists f :: FoundOn(scans, a, f) && LeaksCredential(f, fp)
  }

  lemma FindingOps(a: string, f: ScanEngine.Finding, op: Op)
    ensures op in OpsOf(a, f) && op.OpDerive? <==> Escalates(f) && op == OpDerive(a, f.cwe, f.title, f.risk)
    ensures op in OpsOf(a, f) && op.OpRecord? <==>
              LeaksCredential(f, f.credFp) && op == OpRecord(a, f.principal, f.credFp, f.title)
  {
  }

  /** The operation stems from a finding on its host. */
  lemma {:induction false} OpHasFinding(scans: seq<ScanRecord>, ops: seq<Op>, owner: seq<nat>, op: Op)
    returns (f: ScanEngine.Finding)
    requires Interleaves(scans, ops, owner) && op in ops && OnAsset(op)
    ensures FoundOn(scans, op.assetId, f) && op in OpsOf(op.assetId, f)
  {
    OpsOfInterleaving(scans, ops, owner, op);
    var s :| s in scans && op in OpsOfScan(s);
    OpsOfFindings(s.assetId, s.findings, op);
    f :| f in s.findings && op in OpsOf(s.assetId, f);
    OpsOnOneAsset(s.assetId, s.findings, op);
  }

  lemma {:induction false} FindingHasOps(scans: seq<ScanRecord>, ops: seq<Op>, owner: seq<nat>, a: string,
                                        f: ScanEngine.Finding, op: Op)
    requires Interleaves(scans, ops, owner) && FoundOn(scans, a, f) && op in OpsOf(a, f)
    ensures op in ops
  {
    OpsOfInterleaving(scans, ops, owner, op);
    var s :| s in scans && s.assetId == a && f in s.findings;
    OpsOfFindings(a, s.findings, op);
    assert op in OpsOfScan(s);
  }

  lemma {:induction false} ExposedIff(scans: seq<ScanRecord>, ops: seq<Op>, owner: seq<nat>, a: string, fp: string)
    requires Interleaves(scans, ops, owner)
    ensures (a, fp) in Exposed(ops) <==> LeakingHost(scans, a, fp)
  {
    InterleavingIsOrderly(scans, ops, owner);
    OrderlyIsTidy(ops);
    ExposedAreRecorded(ops, a, fp);
    if Recorded(ops, a, fp) {
      var i :| 0 <= i < |ops| && IsRecord(ops[i], a, fp);
      var f := OpHasFinding(scans, ops, owner, ops[i]);
      FindingOps(a, f, ops[i]);
      assert LeaksCredential(f, fp);
    }
    if f :| FoundOn(scans, a, f) && LeaksCredential(f, fp) {
      var op := OpRecord(a, f.principal, f.credFp, f.title);
      FindingOps(a, f, op);
      FindingHasOps(scans, ops, owner, a, f, op);
      var i :| 0 <= i < |ops| && ops[i] == op;
      assert IsRecord(ops[i], a, fp);
    }
  }

  /** The offers for a host's escalation edge are its escalating findings. */
  lemma {:induction false} OfferIff(scans: seq<ScanRecord>, ops: seq<Op>, owner: seq<nat>, a: string, o: Escalation)
    requires Interleaves(scans, ops, owner)
    ensures o in Offers(ops, a) <==>
              exists f :: FoundOn(scans, a, f) && Escalates(f) && o == Offer(f.cwe, f.title, f.risk)
    ensures a in Escalatable(ops) <==> Offers(ops, a) != []
  {
    InterleavingIsOrderly(scans, ops, owner);
    forall i | 0 <= i < |ops| && ops[i].OpDerive? ensures ops[i].assetId in Run(ops[..i]).assets {
      OrderlyProjected(ops, i);
    }
    OffersAreDerives(ops, a, o);
    EscalatableIffOffers(ops, a);
    if op :| op in ops && IsDerive(op, a) && OfferOf(op) == o {
      var f := OpHasFinding(scans, ops, owner, op);
      FindingOps(a, f, op);
    }
    if f :| FoundOn(scans, a, f) && Escalates(f) && o == Offer(f.cwe, f.title, f.risk) {
      var op := OpDerive(a, f.cwe, f.title, f.risk);
      FindingOps(a, f, op);
      FindingHasOps(scans, ops, owner, a, f, op);
      assert IsDerive(op, a) && OfferOf(op) == o;
    }
  }

  lemma {:induction false} EscalatableIff(scans: seq<ScanRecord>, ops: seq<Op>, owner: seq<nat>, a: string)
    requires Interleaves(scans, ops, owner)
    ensures a in Escalatable(ops) <==> EscalatableHost(scans, a)
  {
    OfferIff(scans, ops, owner, a, Offer("", "", 0.0));
    if Offers(ops, a) != [] {
      var o := Offers(ops, a)[0];
      OfferIff(scans, ops, owner, a, o);
      assert o in Offers(ops, a);
    }
    if f :| FoundOn(scans, a, f) && Escalates(f) {
      OfferIff(scans, ops, owner, a, Offer(f.cwe, f.title, f.risk));
    }
  }

  /** Every interleaving of finished scans meets the conditions of the derived graph, and
      leaves the exposures and the escalatable hosts of its findings. */
  lemma InterleavingEffect(scans: seq<ScanRecord>, ops: seq<Op>, owner: seq<nat>, a: string, fp: string)
    requires Interleaves(scans, ops, owner)
    ensures Tidy(ops)
    ensures (a, fp) in Exposed(ops) <==> LeakingHost(scans, a, fp)
    ensures a in Escalatable(ops) <==> EscalatableHost(scans, a)
  {
    InterleavingIsOrderly(scans, ops, owner);
    OrderlyIsTidy(ops);
    ExposedIff(scans, ops, owner, a, fp);
    EscalatableIff(scans, ops, owner, a);
  }

  // ---------- credential reuse ----------

  /** Two different hosts on which scans found the same credential. */
  ghost predicate ShareLeak(scans: seq<ScanRecord>, x: string, y: string) {
    x != y && exists fp :: LeakingHost(scans, x, fp) && LeakingHost(scans, y, fp)
  }

  lemma {:induction false} SharesIffShareLeak(scans: seq<ScanRecord>, ops: seq<Op>, owner: seq<nat>, x: string,
                                              y: string)
    requires Interleaves(scans, ops, owner)
    ensures Shares(Exposed(ops), x, y) <==> ShareLeak(scans, x, y)
  {
    forall fp ensures (x, fp) in Exposed(ops) <==> LeakingHost(scans, x, fp)
              ensures (y, fp) in Exposed(ops) <==> LeakingHost(scans, y, fp) {
      ExposedIff(scans, ops, owner, x, fp);
      ExposedIff(scans, ops, owner, y, fp);
    }
  }

  /** However the writes of finished scans interleave, the reuse edges are
      root@x -> foothold@y for exactly the pairs of hosts that leaked a common credential. */
  lemma ReuseAfterScans(scans: seq<ScanRecord>, ops: seq<Op>, owner: seq<nat>, x: string, y: string)
    requires Interleaves(scans, ops, owner)
    ensures (Root(x), Foothold(y)) in Run(ops).reuses <==> ShareLeak(scans, x, y)
    ensures forall k :: k in Run(ops).reuses ==> exists a, b :: k == (Root(a), Foothold(b)) && ShareLeak(scans, a, b)
  {
    InterleavingIsOrderly(scans, ops, owner);
    OrderlyIsTidy(ops);
    ReuseClosure(ops, x, y);
    SharesIffShareLeak(scans, ops, owner, x, y);
    forall k | k in Run(ops).reuses ensures exists a, b :: k == (Root(a), Foothold(b)) && ShareLeak(scans, a, b) {
      var a, b := ReuseEdgeIsShared(ops, k);
      SharesIffShareLeak(scans, ops, owner, a, b);
    }
  }

  // ---------- escalation ----------

  /** Hosts an attacker can take over in turn, by the findings of the scans. */
  ghost predicate FoundChain(scans: seq<ScanRecord>, hosts: seq<string>) {
    && hosts != []
    && (forall i :: 0 <= i < |hosts| ==> EscalatableHost(scans, hosts[i]))
    && (forall i :: 0 < i < |hosts| ==> ShareLeak(scans, hosts[i - 1], hosts[i]))
  }

  lemma {:induction false} ReportedIffFound(scans: seq<ScanRecord>, ops: seq<Op>, owner: seq<nat>, hosts: seq<string>)
    requires Interleaves(scans, ops, owner)
    ensures ReportedChain(ops, hosts) <==> FoundChain(scans, hosts)
  {
    forall i | 0 <= i < |hosts| ensures hosts[i] in Escalatable(ops) <==> EscalatableHost(scans, hosts[i]) {
      EscalatableIff(scans, ops, owner, hosts[i]);
    }
    forall i | 0 < i < |hosts|
      ensures Shares(Exposed(ops), hosts[i - 1], hosts[i]) <==> ShareLeak(scans, hosts[i - 1], hosts[i])
    {
      SharesIffShareLeak(scans, ops, owner, hosts[i - 1], hosts[i]);
    }
  }

  predicate Joins(hosts: seq<string>, a: string, b: string) {
    hosts != [] && hosts[0] == a && hosts[|hosts| - 1] == b
  }

  /** However the writes of finished scans interleave, attackers can get from a foothold on
      a to root on b exactly when the findings line up as a chain of hosts from a to b, each
      with a privilege-escalation finding, neighbours leaking a common credential. */
  lemma EscalationAfterScans(scans: seq<ScanRecord>, ops: seq<Op>, owner: seq<nat>, a: string, b: string)
    requires Interleaves(scans, ops, owner)
    ensures (exists q :: IsPath(WeightsOf(Run(ops)), q, Foothold(a), Root(b))) <==>
              exists hosts :: FoundChain(scans, hosts) && Joins(hosts, a, b)
  {
    InterleavingIsOrderly(scans, ops, owner);
    OrderlyIsTidy(ops);
    PathsAreReportedChains(ops, a, b);
    if hosts :| ReportedChain(ops, hosts) && hosts[0] == a && hosts[|hosts| - 1] == b {
      ReportedIffFound(scans, ops, owner, hosts);
      assert Joins(hosts, a, b);
    }
    if hosts :| FoundChain(scans, hosts) && Joins(hosts, a, b) {
      ReportedIffFound(scans, ops, owner, hosts);
    }
  }

  // ---------- effort ----------

  /** The escalating finding of greatest risk on a host. */
  ghost predicate WorstFinding(scans: seq<ScanRecord>, a: string, f: ScanEngine.Finding) {
    && FoundOn(scans, a, f) && Escalates(f)
    && forall f' :: FoundOn(scans, a, f') && Escalates(f') ==> f'.risk <= f.risk
  }

  ghost predicate IsClimbEffort(scans: seq<ScanRecord>, a: string, w: real) {
    exists f :: WorstFinding(scans, a, f) && w == AutoEscalationWeight(f.risk)
  }

  /** What taking root on a host costs: the weight of its worst finding. */
  ghost function ClimbEffort(scans: seq<ScanRecord>, a: string): real {
    if exists w :: IsClimbEffort(scans, a, w) then var w :| IsClimbEffort(scans, a, w); w else 0.0
  }

  lemma ClimbEffortIs(scans: seq<ScanRecord>, a: string, f: ScanEngine.Finding)
    requires WorstFinding(scans, a, f)
    ensures ClimbEffort(scans, a) == AutoEscalationWeight(f.risk)
  {
    assert IsClimbEffort(scans, a, AutoEscalationWeight(f.risk));
    var w := ClimbEffort(scans, a);
    assert IsClimbEffort(scans, a, w);
    var f' :| WorstFinding(scans, a, f') && w == AutoEscalationWeight(f'.risk);
    assert f'.risk == f.risk;
  }

  ghost predicate FirstMatch(ops: seq<Op>, i: int, x: string, y: string) {
    JoinMatches(ops, i, x, y) && forall j :: 0 <= j < i ==> !JoinMatches(ops, j, x, y)
  }

  ghost predicate IsHopEffort(ops: seq<Op>, x: string, y: string, w: real) {
    exists i :: FirstMatch(ops, i, x, y) && w == AutoReuseWeight(ops[i].risk)
  }

  /** What moving from x to y costs: the weight of the first join of a credential that both
      had exposed by then. */
  ghost function HopEffort(ops: seq<Op>, x: string, y: string): real {
    if exists w :: IsHopEffort(ops, x, y, w) then var w :| IsHopEffort(ops, x, y, w); w else 0.0
  }

  lemma HopEffortIs(ops: seq<Op>, x: string, y: string, i: int)
    requires FirstMatch(ops, i, x, y)
    ensures HopEffort(ops, x, y) == AutoReuseWeight(ops[i].risk)
  {
    assert IsHopEffort(ops, x, y, AutoReuseWeight(ops[i].risk));
    var w := HopEffort(ops, x, y);
    assert IsHopEffort(ops, x, y, w);
    var i' :| FirstMatch(ops, i', x, y) && w == AutoReuseWeight(ops[i'].risk);
    assert i' == i;
  }

  /** What taking over a chain of hosts costs: a climb on each, a hop to each next one. */
  ghost function ChainEffort(scans: seq<ScanRecord>, ops: seq<Op>, hosts: seq<string>): real
    requires hosts != []
  {
    var n := |hosts| - 1;
    if n == 0 then ClimbEffort(scans, hosts[0])
    else ChainEffort(scans, ops, hosts[..n]) + HopEffort(ops, hosts[n - 1], hosts[n]) + ClimbEffort(scans, hosts[n])
  }

  lemma {:induction false} WorstOffer(offers: seq<Escalation>) returns (m: nat)
    requires offers != [] && forall o :: o in offers ==> o.risk.Some?
    ensures m < |offers| && offers[m].risk.Some?
    ensures forall o :: o in offers && o.risk.Some? ==> o.risk.value <= offers[m].risk.value
  {
    var n := |offers| - 1;
    assert offers[n] in offers;
    if n == 0 {
      m := 0;
    } else {
      m := WorstOffer(offers[..n]);
      assert offers[m] in offers;
      assert forall o :: o in offers ==> o in offers[..n] || o == offers[n];
      if offers[m].risk.value < offers[n].risk.value {
        m := n;
      }
    }
  }

  /** The offer of greatest risk comes from the worst finding. */
  lemma {:induction false} WorstOfferIsWorst(scans: seq<ScanRecord>, ops: seq<Op>, owner: seq<nat>, a: string,
                                             o: Escalation)
    returns (f: ScanEngine.Finding)
    requires Interleaves(scans, ops, owner) && o in Offers(ops, a) && o.risk.Some?
    requires forall o' :: o' in Offers(ops, a) && o'.risk.Some? ==> o'.risk.value <= o.risk.value
    ensures WorstFinding(scans, a, f) && o.risk == Some(f.risk)
  {
    OfferIff(scans, ops, owner, a, o);
    f :| FoundOn(scans, a, f) && Escalates(f) && o == Offer(f.cwe, f.title, f.risk);
    forall f' | FoundOn(scans, a, f') && Escalates(f') ensures f'.risk <= f.risk {
      OfferIff(scans, ops, owner, a, Offer(f'.cwe, f'.title, f'.risk));
    }
  }

  /** The stored escalation weight of a host is that of its worst finding. */
  lemma {:induction false} ClimbWeight(scans: seq<ScanRecord>, ops: seq<Op>, owner: seq<nat>, a: string)
    requires Interleaves(scans, ops, owner) && EscalatableHost(scans, a)
    ensures Climb(a) in WeightsOf(Run(ops)) && WeightsOf(Run(ops))[Climb(a)] == ClimbEffort(scans, a)
  {
    InterleavingIsOrderly(scans, ops, owner);
    EscalatableIff(scans, ops, owner, a);
    OfferIff(scans, ops, owner, a, Offer("", "", 0.0));
    OffersWeighed(ops, a);
    var offers := Offers(ops, a);
    var m := WorstOffer(offers);
    assert offers[m] in offers;
    WeightOfWorstFinding(ops, a, m);
    var f := WorstOfferIsWorst(scans, ops, owner, a, offers[m]);
    ClimbEffortIs(scans, a, f);
    assert HasRel(Run(ops), Climb(a));
  }

  lemma {:induction false} HopWeight(ops: seq<Op>, x: string, y: string)
    requires AutoOnly(ops) && Hop(x, y) in WeightsOf(Run(ops))
    ensures WeightsOf(Run(ops))[Hop(x, y)] == HopEffort(ops, x, y)
  {
    assert HasRel(Run(ops), Hop(x, y));
    var i := WeightOfFirstJoin(ops, x, y);
    assert FirstMatch(ops, i, x, y);
    HopEffortIs(ops, x, y, i);
  }

  /** Every climb and hop of the chain weighs what its effort is. */
  ghost predicate Priced(w: Weights, scans: seq<ScanRecord>, ops: seq<Op>, hosts: seq<string>) {
    && IsChain(w, hosts)
    && (forall i :: 0 <= i < |hosts| ==> w[Climb(hosts[i])] == ClimbEffort(scans, hosts[i]))
    && (forall i :: 0 < i < |hosts| ==> w[Hop(hosts[i - 1], hosts[i])] == HopEffort(ops, hosts[i - 1], hosts[i]))
  }

  lemma {:induction false} PricedCost(w: Weights, scans: seq<ScanRecord>, ops: seq<Op>, hosts: seq<string>)
    requires Priced(w, scans, ops, hosts)
    ensures ChainCost(w, hosts) == ChainEffort(scans, ops, hosts)
  {
    if |hosts| == 1 {
    } else {
      PricedCost(w, scans, ops, hosts[..|hosts| - 1]);
    }
  }

  /** The graph's cost of a found chain is the effort its findings and joins make up. */
  lemma {:induction false} ChainCostIsEffort(scans: seq<ScanRecord>, ops: seq<Op>, owner: seq<nat>, hosts: seq<string>)
    requires Interleaves(scans, ops, owner) && AutoOnly(ops)
    requires FoundChain(scans, hosts) && IsChain(WeightsOf(Run(ops)), hosts)
    ensures ChainCost(WeightsOf(Run(ops)), hosts) == ChainEffort(scans, ops, hosts)
  {
    var w := WeightsOf(Run(ops));
    forall i | 0 <= i < |hosts| ensures w[Climb(hosts[i])] == ClimbEffort(scans, hosts[i]) {
      ClimbWeight(scans, ops, owner, hosts[i]);
    }
    forall i | 0 < i < |hosts| ensures w[Hop(hosts[i - 1], hosts[i])] == HopEffort(ops, hosts[i - 1], hosts[i]) {
      HopWeight(ops, hosts[i - 1], hosts[i]);
    }
    PricedCost(w, scans, ops, hosts);
  }

  /** The cheapest escalation from a to b costs what the cheapest found chain does: no
      chain takes less effort, and one takes just that. */
  lemma EffortAfterScans(scans: seq<ScanRecord>, ops: seq<Op>, owner: seq<nat>, a: string, b: string, p: seq<Rel>)
    requires Interleaves(scans, ops, owner)
    requires Optimal(WeightsOf(Run(ops)), p, Foothold(a), Root(b))
    ensures forall hosts :: FoundChain(scans, hosts) && Joins(hosts, a, b) ==>
              Cost(WeightsOf(Run(ops)), p) <= ChainEffort(scans, ops, hosts)
    ensures exists hosts :: && FoundChain(scans, hosts) && Joins(hosts, a, b)
                            && ChainEffort(scans, ops, hosts) == Cost(WeightsOf(Run(ops)), p)
  {
    var w := WeightsOf(Run(ops));
    InterleavingIsOrderly(scans, ops, owner);
    OrderlyIsTidy(ops);
    LeastEffortIsLeastChain(ops, a, b, p);
    forall hosts | FoundChain(scans, hosts) && Joins(hosts, a, b) ensures Cost(w, p) <= ChainEffort(scans, ops, hosts) {
      ReportedIffFound(scans, ops, owner, hosts);
      ChainsAreReported(ops, hosts);
      ChainCostIsEffort(scans, ops, owner, hosts);
    }
    var hosts :| IsChain(w, hosts) && ReportedChain(ops, hosts) && hosts[0] == a
                 && hosts[|hosts| - 1] == b && ChainCost(w, hosts) == Cost(w, p);
    ReportedIffFound(scans, ops, owner, hosts);
    ChainCostIsEffort(scans, ops, owner, hosts);
    assert Joins(hosts, a, b);
  }

  // ---------- one after another ----------

  function HistoryOps(scans: seq<ScanRecord>): seq<Op> {
    if scans == [] then [] else
    var n := |scans| - 1;
    HistoryOps(scans[..n]) + OpsOfScan(scans[n])
  }

  function Repeat(k: nat, n: nat): seq<nat> {
    seq(n, _ => k)
  }

  function HistoryOwner(scans: seq<ScanRecord>): (owner: seq<nat>)
    ensures |owner| == |HistoryOps(scans)|
  {
    if scans == [] then [] else
    var n := |scans| - 1;
    HistoryOwner(scans[..n]) + Repeat(n, |OpsOfScan(scans[n])|)
  }

  lemma {:induction false} ProjectConcat(xs: seq<Op>, us: seq<nat>, ys: seq<Op>, vs: seq<nat>, k: nat)
    requires |xs| == |us| && |ys| == |vs|
    ensures Project(xs + ys, us + vs, k) == Project(xs, us, k) + Project(ys, vs, k)
  {
    if ys == [] {
      assert xs + ys == xs && us + vs == us;
    } else {
      var n := |ys| - 1;
      ProjectConcat(xs, us, ys[..n], vs[..n], k);
      assert (xs + ys)[..|xs| + n] == xs + ys[..n] && (us + vs)[..|xs| + n] == us + vs[..n];
      assert (xs + ys)[|xs| + n] == ys[n] && (us + vs)[|xs| + n] == vs[n];
    }
  }

  lemma {:induction false} ProjectRepeat(ops: seq<Op>, m: nat, k: nat)
    ensures Project(ops, Repeat(m, |ops|), k) == if m == k then ops else []
  {
    if ops == [] {
    } else {
      var n := |ops| - 1;
      ProjectRepeat(ops[..n], m, k);
      assert Repeat(m, |ops|)[..n] == Repeat(m, n);
    }
  }

  lemma {:induction false} ProjectNone(ops: seq<Op>, owner: seq<nat>, k: nat)
    requires |ops| == |owner| && forall i :: 0 <= i < |owner| ==> owner[i] != k
    ensures Project(ops, owner, k) == []
  {
    if ops == [] {
    } else {
      ProjectNone(ops[..|ops| - 1], owner[..|ops| - 1], k);
    }
  }

  lemma {:induction false} OneMoreScan(scans: seq<ScanRecord>, ops: seq<Op>, owner: seq<nat>, s: ScanRecord, k: nat)
    requires Interleaves(scans, ops, owner) && k <= |scans|
    ensures Project(ops + OpsOfScan(s), owner + Repeat(|scans|, |OpsOfScan(s)|), k) == OpsOfScan((scans + [s])[k])
  {
    ProjectConcat(ops, owner, OpsOfScan(s), Repeat(|scans|, |OpsOfScan(s)|), k);
    ProjectRepeat(OpsOfScan(s), |scans|, k);
    if k == |scans| {
      ProjectNone(ops, owner, k);
    }
  }

  lemma {:induction false} InterleavesSnoc(scans: seq<ScanRecord>, ops: seq<Op>, owner: seq<nat>, s: ScanRecord)
    requires Interleaves(scans, ops, owner)
    ensures Interleaves(scans + [s], ops + OpsOfScan(s), owner + Repeat(|scans|, |OpsOfScan(s)|))
  {
    forall k: nat | k < |scans + [s]|
      ensures Project(ops + OpsOfScan(s), owner + Repeat(|scans|, |OpsOfScan(s)|), k) == OpsOfScan((scans + [s])[k])
    {
      OneMoreScan(scans, ops, owner, s, k);
    }
  }

  /** Scans that follow one another are one such interleaving. */
  lemma {:induction false} SequentialInterleaves(scans: seq<ScanRecord>)
    ensures Interleaves(scans, HistoryOps(scans), HistoryOwner(scans))
  {
    if scans == [] {
    } else {
      var n := |scans| - 1;
      SequentialInterleaves(scans[..n]);
      InterleavesSnoc(scans[..n], HistoryOps(scans[..n]), HistoryOwner(scans[..n]), scans[n]);
      assert scans == scans[..n] + [scans[n]];
    }
  }
}
