/** Graphs written by scans alone: what the two automatic derivations add up to,
    in whatever order and however often they happen. */
module DerivedGraph {
  import opened RiskScore
  import opened PrivilegeGraph

  // ---------- the shape of a derived graph ----------

  /** The accounts are the foothold and the root of each host, and nothing else. */
  ghost predicate AccountShape(hosts: set<Id>, g: Graph) {
    && (forall a :: a in hosts ==>
          && a in g.assets && Foothold(a) in g.accounts && g.accounts[Foothold(a)].assetId == a
          && Root(a) in g.accounts && g.accounts[Root(a)].assetId == a)
    && (forall id :: id in g.accounts ==>
          var a := g.accounts[id].assetId; a in hosts && (id == Foothold(a) || id == Root(a)))
  }

  /** CAN_READ and VALID_ON say exactly which host exposed which fingerprint. */
  ghost predicate CredentialShape(exposed: set<(Id, string)>, hosts: set<Id>, g: Graph) {
    && (forall e :: e in exposed ==>
          e.0 in hosts && (Root(e.0), e.1) in g.canRead && (e.1, Foothold(e.0)) in g.validOn)
    && (forall k :: k in g.canRead ==>
          k.0 in g.accounts && k.0 == Root(g.accounts[k.0].assetId) && (g.accounts[k.0].assetId, k.1) in exposed)
    && (forall k :: k in g.validOn ==>
          k.1 in g.accounts && k.1 == Foothold(g.accounts[k.1].assetId) && (g.accounts[k.1].assetId, k.0) in exposed)
  }

  ghost predicate Shares(exposed: set<(Id, string)>, x: Id, y: Id) {
    x != y && exists fp :: (x, fp) in exposed && (y, fp) in exposed
  }

  /** Reuse edges join hosts that share a credential, and every shared credential
      that is not waiting for its join has all of its edges. */
  ghost predicate ReuseShape(exposed: set<(Id, string)>, pending: set<string>, g: Graph) {
    && (forall k :: k in g.reuses ==>
          && k.0 in g.accounts && k.1 in g.accounts
          && k == (Root(g.accounts[k.0].assetId), Foothold(g.accounts[k.1].assetId))
          && Shares(exposed, g.accounts[k.0].assetId, g.accounts[k.1].assetId))
    && (forall x, y, fp :: (x, fp) in exposed && (y, fp) in exposed && x != y && fp !in pending ==>
          (Root(x), Foothold(y)) in g.reuses)
  }

  /** The part of the shape that does not mention escalation edges. */
  ghost predicate AccessShape(exposed: set<(Id, string)>, pending: set<string>, hosts: set<Id>, g: Graph) {
    AccountShape(hosts, g) && CredentialShape(exposed, hosts, g) && ReuseShape(exposed, pending, g)
  }

  /** Escalation edges sit on hosts, exactly on those with a finding. */
  ghost predicate EscalationShape(found: set<Id>, hosts: set<Id>, g: Graph) {
    && (forall k :: k in g.escalations ==>
          k.0 in g.accounts && k == HostEdge(g.accounts[k.0].assetId) && g.accounts[k.0].assetId in found)
    && (forall a :: a in found ==> a in hosts && HostEdge(a) in g.escalations)
  }

  // ---------- each derivation keeps the shape ----------

  lemma EnsuredAccounts(g: Graph, a: Id)
    ensures var h := EnsureHostAccounts(g, a).accounts;
            && (forall id :: id in h <==> id in g.accounts || id == Foothold(a) || id == Root(a))
            && (forall id :: id in h ==> if id in g.accounts then h[id] == g.accounts[id] else h[id].assetId == a)
  {
  }

  lemma EnsureKeepsAccounts(hosts: set<Id>, g: Graph, a: Id)
    requires AccountShape(hosts, g) && a in g.assets
    ensures AccountShape(hosts + {a}, EnsureHostAccounts(g, a))
    ensures forall id :: id in g.accounts ==>
              id in EnsureHostAccounts(g, a).accounts && EnsureHostAccounts(g, a).accounts[id] == g.accounts[id]
  {
    EnsuredAccounts(g, a);
    forall b ensures Foothold(a) != Root(b) && Foothold(b) != Root(a)
                     && (Foothold(a) == Foothold(b) ==> a == b) && (Root(a) == Root(b) ==> a == b) {
      AccountIdsDistinct(a, b);
      AccountIdsDistinct(b, a);
    }
  }

  lemma EnsureKeepsAccess(exposed: set<(Id, string)>, pending: set<string>, hosts: set<Id>, g: Graph, a: Id)
    requires AccessShape(exposed, pending, hosts, g) && a in g.assets
    ensures AccessShape(exposed, pending, hosts + {a}, EnsureHostAccounts(g, a))
  {
    EnsureKeepsAccounts(hosts, g, a);
    var h := EnsureHostAccounts(g, a);
    assert h.canRead == g.canRead && h.validOn == g.validOn && h.reuses == g.reuses;
  }

  lemma RecordKeepsCredentials(exposed: set<(Id, string)>, hosts: set<Id>, h: Graph, g: Graph, a: Id, fp: string,
                               technique: string)
    requires AccountShape(hosts, h) && CredentialShape(exposed, hosts, h) && a in hosts
    requires g.accounts == h.accounts
    requires g.canRead == h.canRead[(Root(a), fp) := technique] && g.validOn == h.validOn + {(fp, Foothold(a))}
    ensures CredentialShape(exposed + {(a, fp)}, hosts, g)
  {
  }

  lemma MoreExposureKeepsReuse(exposed: set<(Id, string)>, pending: set<string>, h: Graph, g: Graph, e: (Id, string))
    requires ReuseShape(exposed, pending, h)
    requires g.accounts == h.accounts && g.reuses == h.reuses
    ensures ReuseShape(exposed + {e}, pending + {e.1}, g)
  {
    assert forall x, y :: Shares(exposed, x, y) ==> Shares(exposed + {e}, x, y);
  }

  lemma RecordKeepsAccess(exposed: set<(Id, string)>, pending: set<string>, hosts: set<Id>, g: Graph, a: Id,
                          principal: string, fp: string, technique: string)
    requires AccessShape(exposed, pending, hosts, g) && a in g.assets
    ensures var g' := RecordCredential(g, a, principal, fp, technique);
            AccessShape(exposed + {(a, fp)}, pending + {fp}, hosts + {a}, g')
  {
    EnsureKeepsAccess(exposed, pending, hosts, g, a);
    var h := EnsureHostAccounts(g, a);
    var g' := RecordCredential(g, a, principal, fp, technique);
    RecordKeepsCredentials(exposed, hosts + {a}, h, g', a, fp, technique);
    MoreExposureKeepsReuse(exposed, pending, h, g', (a, fp));
  }

  /** The rows of the second transaction are the ordered pairs of different hosts
      exposing the fingerprint. */
  lemma SharingIsExposure(exposed: set<(Id, string)>, hosts: set<Id>, g: Graph, fp: string)
    requires AccountShape(hosts, g) && CredentialShape(exposed, hosts, g)
    ensures forall k :: k in Sharing(g, fp) ==>
              && k.0 in g.accounts && k.1 in g.accounts
              && k == (Root(g.accounts[k.0].assetId), Foothold(g.accounts[k.1].assetId))
              && g.accounts[k.0].assetId != g.accounts[k.1].assetId
              && (g.accounts[k.0].assetId, fp) in exposed && (g.accounts[k.1].assetId, fp) in exposed
    ensures forall x, y :: x != y && (x, fp) in exposed && (y, fp) in exposed ==>
              (Root(x), Foothold(y)) in Sharing(g, fp)
  {
    forall k | k in Sharing(g, fp)
      ensures k.0 in g.accounts && k.1 in g.accounts
              && k == (Root(g.accounts[k.0].assetId), Foothold(g.accounts[k.1].assetId))
              && (g.accounts[k.0].assetId, fp) in exposed && (g.accounts[k.1].assetId, fp) in exposed
    {
      assert (k.0, fp) in g.canRead && (fp, k.1) in g.validOn;
    }
    forall x, y | x != y && (x, fp) in exposed && (y, fp) in exposed
      ensures (Root(x), Foothold(y)) in Sharing(g, fp)
    {
      assert (x, fp) in exposed && (y, fp) in exposed;
    }
  }

  lemma JoinKeepsReuse(exposed: set<(Id, string)>, pending: set<string>, g: Graph, g': Graph, rows: set<(Id, Id)>,
                       fp: string)
    requires ReuseShape(exposed, pending, g)
    requires g'.accounts == g.accounts && g'.reuses.Keys == rows + g.reuses.Keys
    requires forall k :: k in rows ==>
               && k.0 in g.accounts && k.1 in g.accounts
               && k == (Root(g.accounts[k.0].assetId), Foothold(g.accounts[k.1].assetId))
               && Shares(exposed, g.accounts[k.0].assetId, g.accounts[k.1].assetId)
    requires forall x, y :: x != y && (x, fp) in exposed && (y, fp) in exposed ==> (Root(x), Foothold(y)) in rows
    ensures ReuseShape(exposed, pending - {fp}, g')
  {
  }

  lemma JoinKeepsAccess(exposed: set<(Id, string)>, pending: set<string>, hosts: set<Id>, g: Graph, fp: string,
                        weight: real)
    requires AccessShape(exposed, pending, hosts, g)
    ensures AccessShape(exposed, pending - {fp}, hosts, JoinCredential(g, fp, weight))
  {
    SharingIsExposure(exposed, hosts, g, fp);
    JoinKeepsReuse(exposed, pending, g, JoinCredential(g, fp, weight), Sharing(g, fp), fp);
  }

  lemma MoreEscalations(found: set<Id>, hosts: set<Id>, g: Graph, g': Graph, a: Id)
    requires EscalationShape(found, hosts, g)
    requires forall id :: id in g.accounts ==> id in g'.accounts && g'.accounts[id] == g.accounts[id]
    requires Foothold(a) in g'.accounts && g'.accounts[Foothold(a)].assetId == a
    requires forall k :: k in g'.escalations <==> k in g.escalations || k == HostEdge(a)
    ensures EscalationShape(found + {a}, hosts + {a}, g')
  {
  }

  lemma DeriveKeepsEscalations(found: set<Id>, hosts: set<Id>, g: Graph, a: Id, cwe: string, technique: string,
                               risk: real)
    requires AccountShape(hosts, g) && EscalationShape(found, hosts, g) && a in g.assets
    ensures EscalationShape(found + {a}, hosts + {a}, DeriveEscalation(g, a, cwe, technique, risk))
  {
    EnsureKeepsAccounts(hosts, g, a);
    var edges := KeepCheapest(g.escalations, HostEdge(a), Offer(cwe, technique, risk));
    assert forall k :: k in edges <==> k in g.escalations || k == HostEdge(a);
    MoreEscalations(found, hosts, g, DeriveEscalation(g, a, cwe, technique, risk), a);
  }

  // ---------- runs ----------

  /** Projected hosts with a privilege-escalation finding. */
  function Escalatable(ops: seq<Op>): set<Id> {
    if ops == [] then {} else
    var before, op := ops[..|ops| - 1], ops[|ops| - 1];
    if op.OpDerive? && op.assetId in Run(before).assets
    then Escalatable(before) + {op.assetId} else Escalatable(before)
  }

  /** Projected hosts some derivation has touched. */
  function Hosts(ops: seq<Op>): set<Id> {
    if ops == [] then {} else
    var before, op := ops[..|ops| - 1], ops[|ops| - 1];
    if (op.OpDerive? || op.OpRecord?) && op.assetId in Run(before).assets
    then Hosts(before) + {op.assetId} else Hosts(before)
  }

  ghost predicate Shape(ops: seq<Op>) {
    && AccessShape(Exposed(ops), Pending(ops), Hosts(ops), Run(ops))
    && EscalationShape(Escalatable(ops), Hosts(ops), Run(ops))
  }

  lemma SameAccess(exposed: set<(Id, string)>, pending: set<string>, hosts: set<Id>, h: Graph, g: Graph)
    requires AccessShape(exposed, pending, hosts, h)
    requires (forall a :: a in h.assets ==> a in g.assets) && g.accounts == h.accounts && g.reuses == h.reuses
    requires g.canRead == h.canRead && g.validOn == h.validOn
    ensures AccessShape(exposed, pending, hosts, g)
  {
  }

  /** What one derivation of an escalation adds to the histories. */
  lemma DeriveHistory(before: seq<Op>, op: Op)
    requires op.OpDerive? && op.assetId in Run(before).assets
    ensures Run(before + [op]) == DeriveEscalation(Run(before), op.assetId, op.cwe, op.technique, op.risk)
    ensures Exposed(before + [op]) == Exposed(before) && Pending(before + [op]) == Pending(before)
    ensures Hosts(before + [op]) == Hosts(before) + {op.assetId}
    ensures Escalatable(before + [op]) == Escalatable(before) + {op.assetId}
  {
    assert (before + [op])[..|before|] == before;
  }

  lemma RecordHistory(before: seq<Op>, op: Op)
    requires op.OpRecord? && op.assetId in Run(before).assets
    ensures Run(before + [op]) == RecordCredential(Run(before), op.assetId, op.principal, op.fp, op.technique)
    ensures Exposed(before + [op]) == Exposed(before) + {(op.assetId, op.fp)}
    ensures Pending(before + [op]) == Pending(before) + {op.fp}
    ensures Hosts(before + [op]) == Hosts(before) + {op.assetId}
    ensures Escalatable(before + [op]) == Escalatable(before)
  {
    assert (before + [op])[..|before|] == before;
  }

  lemma DeriveKeepsAccess(exposed: set<(Id, string)>, pending: set<string>, hosts: set<Id>, g: Graph, a: Id,
                          cwe: string, technique: string, risk: real)
    requires AccessShape(exposed, pending, hosts, g) && a in g.assets
    ensures AccessShape(exposed, pending, hosts + {a}, DeriveEscalation(g, a, cwe, technique, risk))
  {
    EnsureKeepsAccess(exposed, pending, hosts, g, a);
    SameAccess(exposed, pending, hosts + {a}, EnsureHostAccounts(g, a), DeriveEscalation(g, a, cwe, technique, risk));
  }

  lemma DeriveKeepsShape(before: seq<Op>, op: Op)
    requires Shape(before) && op.OpDerive? && op.assetId in Run(before).assets
    ensures Shape(before + [op])
  {
    var g, hosts := Run(before), Hosts(before);
    DeriveHistory(before, op);
    DeriveKeepsAccess(Exposed(before), Pending(before), hosts, g, op.assetId, op.cwe, op.technique, op.risk);
    DeriveKeepsEscalations(Escalatable(before), hosts, g, op.assetId, op.cwe, op.technique, op.risk);
  }

  lemma RecordKeepsEscalations(found: set<Id>, hosts: set<Id>, g: Graph, a: Id, principal: string, fp: string,
                               technique: string)
    requires AccountShape(hosts, g) && EscalationShape(found, hosts, g) && a in g.assets
    ensures EscalationShape(found, hosts + {a}, RecordCredential(g, a, principal, fp, technique))
  {
    EnsureKeepsAccounts(hosts, g, a);
    var g' := RecordCredential(g, a, principal, fp, technique);
    assert g'.escalations == g.escalations && g'.accounts == EnsureHostAccounts(g, a).accounts;
  }

  lemma RecordKeepsShape(before: seq<Op>, op: Op)
    requires Shape(before) && op.OpRecord? && op.assetId in Run(before).assets
    ensures Shape(before + [op])
  {
    var g, hosts := Run(before), Hosts(before);
    RecordHistory(before, op);
    RecordKeepsEscalations(Escalatable(before), hosts, g, op.assetId, op.principal, op.fp, op.technique);
    RecordKeepsAccess(Exposed(before), Pending(before), hosts, g, op.assetId, op.principal, op.fp, op.technique);
  }

  lemma QuietKeepsShape(before: seq<Op>, op: Op)
    requires Shape(before)
    requires op.OpAsset? || ((op.OpDerive? || op.OpRecord?) && op.assetId !in Run(before).assets)
    ensures Shape(before + [op])
  {
    assert (before + [op])[..|before|] == before;
    SameAccess(Exposed(before), Pending(before), Hosts(before), Run(before), Run(before + [op]));
  }

  lemma JoinKeepsShape(before: seq<Op>, op: Op)
    requires Shape(before) && op.OpJoin?
    ensures Shape(before + [op])
  {
    assert (before + [op])[..|before|] == before;
    var weight := AutoReuseWeight(op.risk);
    JoinKeepsAccess(Exposed(before), Pending(before), Hosts(before), Run(before), op.fp, weight);
    assert Run(before + [op]) == JoinCredential(Run(before), op.fp, weight);
  }

  lemma {:induction false} DerivedShape(ops: seq<Op>)
    requires AutoOnly(ops)
    ensures Shape(ops)
  {
    if ops == [] {
    } else {
      var before, op := ops[..|ops| - 1], ops[|ops| - 1];
      assert ops == before + [op];
      DerivedShape(before);
      assert !op.Manual();
      if op.OpJoin? {
        JoinKeepsShape(before, op);
      } else if op.OpAsset? || op.assetId !in Run(before).assets {
        QuietKeepsShape(before, op);
      } else if op.OpDerive? {
        DeriveKeepsShape(before, op);
      } else {
        RecordKeepsShape(before, op);
      }
    }
  }
}
