/** The privilege half of the attack graph: accounts, credentials and the weighted
    CAN_ESCALATE and CREDENTIAL_REUSE relationships, as a state changed by queries. */
module PrivilegeGraph {
  import opened Prelude
  import opened Assets
  import opened RiskScore

  type Id = string

  datatype Account = Account(username: string, privilege: string, assetId: Id, auto: bool)

  datatype Escalation = Escalation(weight: real, technique: string, cwe: string, risk: Option<real>, auto: bool)

  datatype Reuse = Reuse(weight: real, principal: Option<string>, via: Option<string>, auto: bool)

  /** MERGE keeps at most one relationship of a type between two nodes, so each
      relationship type is a map or a set keyed by its end points. */
  datatype Graph = Graph(
    assets: map<Id, AssetNode>,
    accounts: map<Id, Account>,
    hasAccount: set<(Id, Id)>,
    escalations: map<(Id, Id), Escalation>,
    reuses: map<(Id, Id), Reuse>,
    principals: map<string, string>,
    canRead: map<(Id, string), string>,
    validOn: set<(string, Id)>)

  const EMPTY_GRAPH := Graph(map[], map[], {}, map[], map[], map[], map[], {})

  // ---------- account ids ----------

  function AutoAccountId(assetId: Id, role: string): Id {
    "auto-" + role + "-" + assetId
  }

  function Foothold(assetId: Id): Id {
    AutoAccountId(assetId, "foothold")
  }

  function Root(assetId: Id): Id {
    AutoAccountId(assetId, "root")
  }

  /** Derived account ids never clash: they determine both the role and the asset. */
  lemma AccountIdsDistinct(a: Id, b: Id)
    ensures Foothold(a) != Root(b)
    ensures Foothold(a) == Foothold(b) ==> a == b
    ensures Root(a) == Root(b) ==> a == b
  {
    assert Foothold(a)[5] == 'f' && Root(b)[5] == 'r';
    assert a == Foothold(a)[14..] && b == Foothold(b)[14..];
    assert a == Root(a)[10..] && b == Root(b)[10..];
  }

  // ---------- the queries ----------

  function SyncAsset(g: Graph, assetId: Id, node: AssetNode): Graph {
    g.(assets := g.assets[assetId := node])
  }

  function SyncAccount(g: Graph, id: Id, username: string, privilege: string, assetId: Id): Graph {
    if assetId !in g.assets then g else
    var auto := id in g.accounts && g.accounts[id].auto;
    g.(accounts := g.accounts[id := Account(username, privilege, assetId, auto)],
       hasAccount := g.hasAccount + {(assetId, id)})
  }

  /** MERGE of an account node with ON CREATE properties. */
  function MergeAccount(accounts: map<Id, Account>, id: Id, account: Account): map<Id, Account> {
    if id in accounts then accounts else accounts[id := account]
  }

  /** Both derived accounts of an asset, as every derivation merges them. */
  function EnsureHostAccounts(g: Graph, assetId: Id): Graph {
    var low := MergeAccount(g.accounts, Foothold(assetId), Account("foothold", "user", assetId, true));
    var both := MergeAccount(low, Root(assetId), Account("root", "root", assetId, true));
    g.(accounts := both,
       hasAccount := g.hasAccount + {(assetId, Foothold(assetId)), (assetId, Root(assetId))})
  }

  function HostEdge(assetId: Id): (Id, Id) {
    (Foothold(assetId), Root(assetId))
  }

  /** MERGE with ON CREATE, then the guarded SET: a dearer edge gives way. */
  function KeepCheapest(edges: map<(Id, Id), Escalation>, k: (Id, Id), found: Escalation): map<(Id, Id), Escalation> {
    if k !in edges then edges[k := found]
    else if edges[k].weight > found.weight then edges[k := found.(auto := edges[k].auto)]
    else edges
  }

  /** The edge a finding asks for. */
  function Offer(cwe: string, technique: string, risk: real): Escalation {
    Escalation(AutoEscalationWeight(risk), technique, cwe, Some(risk), true)
  }

  function DeriveEscalation(g: Graph, assetId: Id, cwe: string, technique: string, risk: real): Graph {
    if assetId !in g.assets then g else
    var h := EnsureHostAccounts(g, assetId);
    h.(escalations := KeepCheapest(h.escalations, HostEdge(assetId), Offer(cwe, technique, risk)))
  }

  /** First transaction of a credential derivation: provenance on this host. */
  function RecordCredential(g: Graph, assetId: Id, principal: string, fp: string, technique: string): Graph {
    if assetId !in g.assets then g else
    var h := EnsureHostAccounts(g, assetId);
    h.(principals := if fp in h.principals then h.principals else h.principals[fp := principal],
       canRead := h.canRead[(Root(assetId), fp) := technique],
       validOn := h.validOn + {(fp, Foothold(assetId))})
  }

  /** The pairs matched by the second transaction. */
  function Sharing(g: Graph, fp: string): set<(Id, Id)> {
    set x, y | x in g.accounts && y in g.accounts && (x, fp) in g.canRead && (fp, y) in g.validOn
               && g.accounts[x].assetId != g.accounts[y].assetId :: (x, y)
  }

  function NewReuse(g: Graph, fp: string, weight: real): Reuse {
    if fp in g.principals
    then Reuse(weight, Some(g.principals[fp]), Some("shared credential: " + g.principals[fp]), true)
    else Reuse(weight, None, None, true)
  }

  /** MERGE with ON CREATE properties over every row. */
  function MergeAll(reuses: map<(Id, Id), Reuse>, rows: set<(Id, Id)>, edge: Reuse): (merged: map<(Id, Id), Reuse>)
    ensures merged.Keys == rows + reuses.Keys
    ensures forall k :: k in merged ==> merged[k] == if k in reuses then reuses[k] else edge
  {
    (map k | k in rows :: edge) + reuses
  }

  /** Second transaction: one relationship for every matched pair that has none. */
  function JoinCredential(g: Graph, fp: string, weight: real): Graph {
    g.(reuses := MergeAll(g.reuses, Sharing(g, fp), NewReuse(g, fp, weight)))
  }

  /** A manual edge: nothing happens unless both accounts exist. */
  function UpsertEscalation(g: Graph, from: Id, to: Id, technique: string, cwe: string, weight: real): Graph {
    if from !in g.accounts || to !in g.accounts then g else
    var k := (from, to);
    var e := if k in g.escalations then g.escalations[k].(technique := technique, cwe := cwe, weight := weight)
             else Escalation(weight, technique, cwe, None, false);
    g.(escalations := g.escalations[k := e])
  }

  function UpsertCredentialReuse(g: Graph, from: Id, to: Id, weight: real): Graph {
    if from !in g.accounts || to !in g.accounts then g else
    var k := (from, to);
    var r := if k in g.reuses then g.reuses[k].(weight := weight) else Reuse(weight, None, None, false);
    g.(reuses := g.reuses[k := r])
  }

  // ---------- what each query writes, and what it leaves alone ----------

  lemma AccountIdsAre(a: Id)
    ensures Foothold(a) == "auto-foothold-" + a && Root(a) == "auto-root-" + a
  {
  }

  lemma AssetWritten(g: Graph, a: Id, node: AssetNode)
    ensures var g' := SyncAsset(g, a, node);
            && a in g'.assets && g'.assets[a] == node
            && (forall b :: b != a ==> (b in g'.assets <==> b in g.assets))
            && (forall b :: b in g.assets && b != a ==> g'.assets[b] == g.assets[b])
            && g' == g.(assets := g'.assets)
  {
  }

  lemma AccountWritten(g: Graph, id: Id, username: string, privilege: string, assetId: Id)
    ensures var g' := SyncAccount(g, id, username, privilege, assetId);
            if assetId !in g.assets then g' == g else
            && id in g'.accounts && g'.accounts[id].username == username && g'.accounts[id].privilege == privilege
            && g'.accounts[id].assetId == assetId
            && (g'.accounts[id].auto <==> id in g.accounts && g.accounts[id].auto)
            && (forall x :: x != id ==> (x in g'.accounts <==> x in g.accounts))
            && (forall x :: x in g.accounts && x != id ==> g'.accounts[x] == g.accounts[x])
            && (forall e :: e in g'.hasAccount <==> e in g.hasAccount || e == (assetId, id))
            && g' == g.(accounts := g'.accounts, hasAccount := g'.hasAccount)
  {
  }

  /** Both derived accounts exist, attached to their asset; an account that was there
      already keeps its properties. */
  lemma HostAccountsWritten(g: Graph, a: Id)
    ensures var g' := EnsureHostAccounts(g, a);
            && (forall x :: x in g'.accounts <==> x in g.accounts || x == Foothold(a) || x == Root(a))
            && (forall x :: x in g.accounts ==> g'.accounts[x] == g.accounts[x])
            && (Foothold(a) !in g.accounts ==> g'.accounts[Foothold(a)] == Account("foothold", "user", a, true))
            && (Root(a) !in g.accounts ==> g'.accounts[Root(a)] == Account("root", "root", a, true))
            && (forall e :: e in g'.hasAccount <==> e in g.hasAccount || e == (a, Foothold(a)) || e == (a, Root(a)))
            && g' == g.(accounts := g'.accounts, hasAccount := g'.hasAccount)
  {
    AccountIdsDistinct(a, a);
  }

  /** The edge from foothold to root becomes the finding's, unless one that is no dearer
      is there; no other edge changes. */
  lemma EscalationDerived(g: Graph, a: Id, cwe: string, technique: string, risk: real)
    ensures var g', k := DeriveEscalation(g, a, cwe, technique, risk), (Foothold(a), Root(a));
            if a !in g.assets then g' == g else
            && k in g'.escalations
            && (if k in g.escalations && g.escalations[k].weight <= AutoEscalationWeight(risk)
                then g'.escalations[k] == g.escalations[k]
                else && g'.escalations[k].weight == AutoEscalationWeight(risk)
                     && g'.escalations[k].technique == technique && g'.escalations[k].cwe == cwe
                     && g'.escalations[k].risk == Some(risk)
                     && (k !in g.escalations ==> g'.escalations[k].auto))
            && (forall x :: x != k ==> (x in g'.escalations <==> x in g.escalations))
            && (forall x :: x in g.escalations && x != k ==> g'.escalations[x] == g.escalations[x])
            && g' == EnsureHostAccounts(g, a).(escalations := g'.escalations)
  {
  }

  /** The credential keeps the principal it was first seen with; root of the host can read
      it, and it is valid on the host's foothold. */
  lemma CredentialRecorded(g: Graph, a: Id, principal: string, fp: string, technique: string)
    ensures var g' := RecordCredential(g, a, principal, fp, technique);
            if a !in g.assets then g' == g else
            && fp in g'.principals && g'.principals[fp] == (if fp in g.principals then g.principals[fp] else principal)
            && (forall x :: x != fp ==> (x in g'.principals <==> x in g.principals))
            && (forall x :: x in g.principals && x != fp ==> g'.principals[x] == g.principals[x])
            && g'.canRead == g.canRead[(Root(a), fp) := technique]
            && (forall x :: x in g'.validOn <==> x in g.validOn || x == (fp, Foothold(a)))
            && g' == EnsureHostAccounts(g, a)
                       .(principals := g'.principals, canRead := g'.canRead, validOn := g'.validOn)
  {
  }

  /** Every account that can read the credential is linked to every account of another
      asset it is valid on; links that were there keep their properties. */
  lemma CredentialJoined(g: Graph, fp: string, weight: real)
    ensures var g' := JoinCredential(g, fp, weight);
            && (forall x, y :: (x, y) in g'.reuses <==>
                  || (x, y) in g.reuses
                  || (x in g.accounts && y in g.accounts && (x, fp) in g.canRead && (fp, y) in g.validOn
                      && g.accounts[x].assetId != g.accounts[y].assetId))
            && (forall k :: k in g.reuses ==> g'.reuses[k] == g.reuses[k])
            && (forall k :: k in g'.reuses && k !in g.reuses ==>
                  && g'.reuses[k].weight == weight && g'.reuses[k].auto
                  && (fp in g.principals ==>
                        && g'.reuses[k].principal == Some(g.principals[fp])
                        && g'.reuses[k].via == Some("shared credential: " + g.principals[fp])))
            && g' == g.(reuses := g'.reuses)
  {
  }

  /** A manual edge runs from `from` to `to`; one that is there keeps its risk and mark. */
  lemma EscalationWritten(g: Graph, from: Id, to: Id, technique: string, cwe: string, weight: real)
    ensures var g', k := UpsertEscalation(g, from, to, technique, cwe, weight), (from, to);
            if from !in g.accounts || to !in g.accounts then g' == g else
            && k in g'.escalations && g'.escalations[k].weight == weight
            && g'.escalations[k].technique == technique && g'.escalations[k].cwe == cwe
            && g'.escalations[k].risk == (if k in g.escalations then g.escalations[k].risk else None)
            && (g'.escalations[k].auto <==> k in g.escalations && g.escalations[k].auto)
            && (forall x :: x != k ==> (x in g'.escalations <==> x in g.escalations))
            && (forall x :: x in g.escalations && x != k ==> g'.escalations[x] == g.escalations[x])
            && g' == g.(escalations := g'.escalations)
  {
  }

  lemma ReuseWritten(g: Graph, from: Id, to: Id, weight: real)
    ensures var g', k := UpsertCredentialReuse(g, from, to, weight), (from, to);
            if from !in g.accounts || to !in g.accounts then g' == g else
            && k in g'.reuses && g'.reuses[k].weight == weight
            && g'.reuses[k].principal == (if k in g.reuses then g.reuses[k].principal else None)
            && g'.reuses[k].via == (if k in g.reuses then g.reuses[k].via else None)
            && (g'.reuses[k].auto <==> k in g.reuses && g.reuses[k].auto)
            && (forall x :: x != k ==> (x in g'.reuses <==> x in g.reuses))
            && (forall x :: x in g.reuses && x != k ==> g'.reuses[x] == g.reuses[x])
            && g' == g.(reuses := g'.reuses)
  {
  }

  // ---------- runs ----------

  /** What the API and the workers do to the graph. The manual operations carry the
      weight of the request body; the handlers replace a non-positive one. */
  datatype Op =
    | OpAsset(assetId: Id, node: AssetNode)
    | OpAccount(id: Id, username: string, privilege: string, assetId: Id)
    | OpAddEscalation(from: Id, to: Id, technique: string, cwe: string, weight: real)
    | OpAddReuse(from: Id, to: Id, weight: real)
    | OpDerive(assetId: Id, cwe: string, technique: string, risk: real)
    | OpRecord(assetId: Id, principal: string, fp: string, technique: string)
    | OpJoin(fp: string, risk: real)
  {
    predicate Manual() { OpAccount? || OpAddEscalation? || OpAddReuse? }
  }

  function Step(g: Graph, op: Op): Graph {
    match op
    case OpAsset(a, node) => SyncAsset(g, a, node)
    case OpAccount(id, u, p, a) => SyncAccount(g, id, u, p, a)
    case OpAddEscalation(f, t, tech, cwe, w) => UpsertEscalation(g, f, t, tech, cwe, if w <= 0.0 then 1.0 else w)
    case OpAddReuse(f, t, w) => UpsertCredentialReuse(g, f, t, if w <= 0.0 then 3.0 else w)
    case OpDerive(a, cwe, tech, risk) => DeriveEscalation(g, a, cwe, tech, risk)
    case OpRecord(a, p, fp, tech) => RecordCredential(g, a, p, fp, tech)
    case OpJoin(fp, risk) => JoinCredential(g, fp, AutoReuseWeight(risk))
  }

  /** The step of an account writes the account as sent. */
  lemma AccountAdded(g: Graph, op: Op)
    requires op.OpAccount? && op.assetId in g.assets
    ensures var g' := Step(g, op);
            && op.id in g'.accounts && g'.accounts[op.id].username == op.username
            && g'.accounts[op.id].privilege == op.privilege && g'.accounts[op.id].assetId == op.assetId
            && (op.assetId, op.id) in g'.hasAccount
  {
  }

  function Run(ops: seq<Op>): Graph {
    if ops == [] then EMPTY_GRAPH else Step(Run(ops[..|ops| - 1]), ops[|ops| - 1])
  }

  /** No manual account or edge writes: the graph comes from scans alone. */
  predicate AutoOnly(ops: seq<Op>) {
    forall i :: 0 <= i < |ops| ==> !ops[i].Manual()
  }

  // ---------- what every reachable graph keeps ----------

  predicate WellFormed(g: Graph) {
    && (forall k :: k in g.escalations ==> g.escalations[k].weight > 0.0 && k.0 in g.accounts && k.1 in g.accounts)
    && (forall k :: k in g.reuses ==> g.reuses[k].weight > 0.0 && k.0 in g.accounts && k.1 in g.accounts)
    && (forall k :: k in g.canRead ==> k.0 in g.accounts)
    && (forall k :: k in g.validOn ==> k.1 in g.accounts)
  }

  lemma CheapestKeepsWellFormed(g: Graph, a: Id, found: Escalation)
    requires WellFormed(g) && found.weight > 0.0 && Foothold(a) in g.accounts && Root(a) in g.accounts
    ensures WellFormed(g.(escalations := KeepCheapest(g.escalations, HostEdge(a), found)))
  {
  }

  lemma DeriveKeepsWellFormed(g: Graph, a: Id, cwe: string, technique: string, risk: real)
    requires WellFormed(g)
    ensures WellFormed(DeriveEscalation(g, a, cwe, technique, risk))
  {
    WeightsInRange(risk);
    if a in g.assets {
      CheapestKeepsWellFormed(EnsureHostAccounts(g, a), a, Offer(cwe, technique, risk));
    }
  }

  lemma JoinKeepsWellFormed(g: Graph, fp: string, risk: real)
    requires WellFormed(g)
    ensures WellFormed(JoinCredential(g, fp, AutoReuseWeight(risk)))
  {
    WeightsInRange(risk);
    assert forall k :: k in Sharing(g, fp) ==> k.0 in g.accounts && k.1 in g.accounts;
  }

  lemma RecordKeepsWellFormed(g: Graph, a: Id, principal: string, fp: string, technique: string)
    requires WellFormed(g)
    ensures WellFormed(RecordCredential(g, a, principal, fp, technique))
  {
    if a in g.assets {
      assert WellFormed(EnsureHostAccounts(g, a));
    }
  }

  lemma ManualKeepsWellFormed(g: Graph, op: Op)
    requires WellFormed(g) && op.Manual()
    ensures WellFormed(Step(g, op))
  {
  }

  lemma StepKeepsWellFormed(g: Graph, op: Op)
    requires WellFormed(g)
    ensures WellFormed(Step(g, op))
  {
    match op
    case OpAsset(_, _) =>
    case OpDerive(a, cwe, tech, risk) => DeriveKeepsWellFormed(g, a, cwe, tech, risk);
    case OpRecord(a, p, fp, tech) => RecordKeepsWellFormed(g, a, p, fp, tech);
    case OpJoin(fp, risk) => JoinKeepsWellFormed(g, fp, risk);
    case _ => ManualKeepsWellFormed(g, op);
  }

  /** Every weight in every reachable graph is positive, whatever weights clients send,
      and every relationship joins existing accounts. */
  lemma {:induction false} ReachableWellFormed(ops: seq<Op>)
    ensures WellFormed(Run(ops))
    ensures forall k :: k in Run(ops).escalations ==> Run(ops).escalations[k].weight > 0.0
    ensures forall k :: k in Run(ops).reuses ==> Run(ops).reuses[k].weight > 0.0
  {
    if ops == [] {
    } else {
      ReachableWellFormed(ops[..|ops| - 1]);
      StepKeepsWellFormed(Run(ops[..|ops| - 1]), ops[|ops| - 1]);
    }
  }

  // ---------- the history a run leaves behind ----------

  /** The edge each privilege-escalation finding of an already projected asset asks for. */
  function Offers(ops: seq<Op>, a: Id): seq<Escalation> {
    if ops == [] then [] else
    var before, op := ops[..|ops| - 1], ops[|ops| - 1];
    if op.OpDerive? && op.assetId == a && a in Run(before).assets
    then Offers(before, a) + [Offer(op.cwe, op.technique, op.risk)]
    else Offers(before, a)
  }

  /** Which projected hosts exposed which credential fingerprint. */
  function Exposed(ops: seq<Op>): set<(Id, string)> {
    if ops == [] then {} else
    var before, op := ops[..|ops| - 1], ops[|ops| - 1];
    if op.OpRecord? && op.assetId in Run(before).assets
    then Exposed(before) + {(op.assetId, op.fp)} else Exposed(before)
  }

  /** Fingerprints recorded on a host since the last join for them. */
  function Pending(ops: seq<Op>): set<string> {
    if ops == [] then {} else
    var before, op := ops[..|ops| - 1], ops[|ops| - 1];
    if op.OpRecord? && op.assetId in Run(before).assets then Pending(before) + {op.fp}
    else if op.OpJoin? then Pending(before) - {op.fp}
    else Pending(before)
  }
}
