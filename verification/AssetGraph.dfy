/** The network half of the attack graph: assets, their vulnerabilities and reachability. */
module AssetGraph {
  import opened Assets
  import opened RiskScore
  import opened Rounding

  type Id = string

  datatype Vuln = Vuln(title: string, cwe: string, risk: real)

  datatype Link = Link(port: int, proto: string)

  datatype Graph = Graph(
    assets: map<Id, AssetNode>, vulns: map<Id, Vuln>, hasVuln: set<(Id, Id)>, reach: map<(Id, Id), Link>)

  const EMPTY_GRAPH := Graph(map[], map[], {}, map[])

  function SyncAsset(g: Graph, id: Id, name: string, target: string, criticality: string, tags: seq<string>): Graph {
    g.(assets := g.assets[id := AssetNode(name, target, criticality, Exposure(tags))])
  }

  function SyncFinding(g: Graph, assetId: Id, vulnId: Id, v: Vuln): Graph {
    if assetId !in g.assets then g
    else g.(vulns := g.vulns[vulnId := v], hasVuln := g.hasVuln + {(assetId, vulnId)})
  }

  function UpsertReachability(g: Graph, src: Id, dst: Id, port: int, proto: string): Graph {
    if src !in g.assets || dst !in g.assets then g
    else g.(reach := g.reach[(src, dst) := Link(port, proto)])
  }

  /** A finding hangs on its own asset, if that is projected; nothing else changes. */
  lemma FindingLinked(g: Graph, assetId: Id, vulnId: Id, v: Vuln)
    ensures var g' := SyncFinding(g, assetId, vulnId, v);
            if assetId in g.assets
            then && vulnId in g'.vulns && g'.vulns[vulnId] == v && (assetId, vulnId) in g'.hasVuln
                 && (forall u :: u in g.vulns && u != vulnId ==> u in g'.vulns && g'.vulns[u] == g.vulns[u])
                 && (forall u :: u in g'.vulns ==> u in g.vulns || u == vulnId)
                 && (forall e :: e in g'.hasVuln <==> e in g.hasVuln || e == (assetId, vulnId))
                 && g'.assets == g.assets && g'.reach == g.reach
            else g' == g
  {
  }

  /** A link runs from source to destination, if both are projected; nothing else changes. */
  lemma ReachabilityLinked(g: Graph, src: Id, dst: Id, port: int, proto: string)
    ensures var g' := UpsertReachability(g, src, dst, port, proto);
            if src in g.assets && dst in g.assets
            then && (src, dst) in g'.reach && g'.reach[(src, dst)] == Link(port, proto)
                 && (forall e :: e in g.reach && e != (src, dst) ==> e in g'.reach && g'.reach[e] == g.reach[e])
                 && (forall e :: e in g'.reach ==> e in g.reach || e == (src, dst))
                 && g'.assets == g.assets && g'.vulns == g.vulns && g'.hasVuln == g.hasVuln
            else g' == g
  {
  }

  /** A node carries its own asset's properties, and is an entry point exactly when tagged
      as internet-facing. */
  lemma AssetProjected(g: Graph, id: Id, name: string, target: string, criticality: string, tags: seq<string>)
    ensures var g' := SyncAsset(g, id, name, target, criticality, tags);
            && id in g'.assets && g'.assets[id].name == name && g'.assets[id].target == target
            && g'.assets[id].criticality == criticality
            && (g'.assets[id].exposure == "external" <==> "public" in tags || "external" in tags || "internet" in tags)
            && (forall a :: a in g.assets && a != id ==> a in g'.assets && g'.assets[a] == g.assets[a])
            && (forall a :: a in g'.assets ==> a in g.assets || a == id)
            && g'.vulns == g.vulns && g'.hasVuln == g.hasVuln && g'.reach == g.reach
  {
    ExposureIff(tags);
  }

  datatype Op =
    | OpAsset(id: Id, name: string, target: string, criticality: string, tags: seq<string>)
    | OpFinding(assetId: Id, vulnId: Id, title: string, cwe: string, cvss: real, known: bool, crit: Criticality)
    | OpReach(src: Id, dst: Id, port: int, proto: string)

  /** Findings reach the graph with the score the normaliser gave them. */
  function Step(g: Graph, op: Op): Graph {
    match op
    case OpAsset(id, name, target, criticality, tags) => SyncAsset(g, id, name, target, criticality, tags)
    case OpFinding(a, v, title, cwe, cvss, known, crit) =>
        SyncFinding(g, a, v, Vuln(title, cwe, Score(cvss, known, crit)))
    case OpReach(s, d, port, proto) => UpsertReachability(g, s, d, port, proto)
  }

  /** What a finding leaves in the graph: its title, its CWE and its score, on its asset. */
  lemma FindingScored(g: Graph, op: Op)
    requires op.OpFinding? && op.assetId in g.assets
    ensures var g' := Step(g, op);
            && op.vulnId in g'.vulns && (op.assetId, op.vulnId) in g'.hasVuln
            && g'.vulns[op.vulnId].title == op.title && g'.vulns[op.vulnId].cwe == op.cwe
            && g'.vulns[op.vulnId].risk == Score(op.cvss, op.known, op.crit)
  {
  }

  function Run(ops: seq<Op>): Graph {
    if ops == [] then EMPTY_GRAPH else Step(Run(ops[..|ops| - 1]), ops[|ops| - 1])
  }

  /** Relationships join existing nodes and stored risks are scores. */
  ghost predicate WellFormed(g: Graph) {
    && (forall e :: e in g.reach ==> e.0 in g.assets && e.1 in g.assets)
    && (forall e :: e in g.hasVuln ==> e.0 in g.assets && e.1 in g.vulns)
    && (forall v :: v in g.vulns ==> 0.0 <= g.vulns[v].risk <= 10.0 && Hundredths(g.vulns[v].risk))
  }

  lemma StepKeepsWellFormed(g: Graph, op: Op)
    requires WellFormed(g)
    ensures WellFormed(Step(g, op))
  {
    match op
    case OpAsset(_, _, _, _, _) =>
    case OpFinding(_, _, _, _, cvss, known, crit) =>
      ScoreInRange(cvss, known, crit);
      TenthsAreHundredths(Score(cvss, known, crit));
    case OpReach(_, _, _, _) =>
  }

  lemma {:induction false} ReachableWellFormed(ops: seq<Op>)
    ensures WellFormed(Run(ops))
  {
    if ops == [] {
    } else {
      ReachableWellFormed(ops[..|ops| - 1]);
      StepKeepsWellFormed(Run(ops[..|ops| - 1]), ops[|ops| - 1]);
    }
  }
}
