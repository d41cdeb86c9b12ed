/** The privilege-escalation query: account lookup, search, and the rounded report. */
module PrivEscQuery {
  import opened Rounding
  import opened RiskScore
  import opened PrivilegeGraph
  import opened EscalationPath

  datatype PrivEscStep = PrivEscStep(kind: Kind, technique: string, cwe: string, weight: real)

  datatype PrivEscNode = PrivEscNode(accountId: Id, username: string, privilege: string, asset: string)

  datatype PrivEscPath = PrivEscPath(accounts: seq<PrivEscNode>, steps: seq<PrivEscStep>, totalCost: real, found: bool)

  const NOT_FOUND := PrivEscPath([], [], 0.0, false)

  /** The names of the assets an account is attached to. */
  function AssetNames(g: Graph, id: Id): set<string> {
    set a | a in g.assets && (a, id) in g.hasAccount :: g.assets[a].name
  }

  /** The account is attached to an asset of this name. */
  ghost predicate AttachedTo(g: Graph, id: Id, name: string) {
    exists a :: a in g.assets && (a, id) in g.hasAccount && g.assets[a].name == name
  }

  /** The node shows the account, beside the name of an asset it is attached to if any. */
  ghost predicate ShowsAccount(g: Graph, id: Id, node: PrivEscNode) {
    && id in g.accounts && node.accountId == id
    && node.username == g.accounts[id].username && node.privilege == g.accounts[id].privilege
    && (AttachedTo(g, id, node.asset) || (node.asset == "" && forall name :: !AttachedTo(g, id, name)))
  }

  method DescribeAccount(g: Graph, id: Id) returns (node: PrivEscNode)
    requires id in g.accounts
    ensures ShowsAccount(g, id, node)
  {
    var names := AssetNames(g, id);
    var asset := "";
    if names != {} {
      asset :| asset in names;
    }
    node := PrivEscNode(id, g.accounts[id].username, g.accounts[id].privilege, asset);
    forall name ensures name in names <==> AttachedTo(g, id, name) {
      if a :| a in g.assets && (a, id) in g.hasAccount && g.assets[a].name == name {
        assert g.assets[a].name in AssetNames(g, id);
      }
    }
  }

  /** A reuse relationship has no technique or CWE; missing properties read as "". */
  function StepOf(g: Graph, r: Rel): PrivEscStep
    requires HasRel(g, r)
  {
    match r.kind
    case CanEscalate =>
      var e := g.escalations[(r.src, r.dst)];
      PrivEscStep(CanEscalate, e.technique, e.cwe, Round2(e.weight))
    case ReusesCredential =>
      PrivEscStep(ReusesCredential, "", "", Round2(g.reuses[(r.src, r.dst)].weight))
  }

  /** The step shows the relationship: its type, its rounded weight and, for an escalation,
      its technique and CWE. */
  ghost predicate ShowsStep(g: Graph, r: Rel, step: PrivEscStep) {
    if r.kind == CanEscalate then
      && (r.src, r.dst) in g.escalations && step.kind == CanEscalate
      && step.technique == g.escalations[(r.src, r.dst)].technique
      && step.cwe == g.escalations[(r.src, r.dst)].cwe
      && step.weight == Round2(g.escalations[(r.src, r.dst)].weight)
    else
      && (r.src, r.dst) in g.reuses && step.kind == ReusesCredential
      && step.technique == "" && step.cwe == ""
      && step.weight == Round2(g.reuses[(r.src, r.dst)].weight)
  }

  lemma StepShown(g: Graph, r: Rel)
    requires HasRel(g, r)
    ensures ShowsStep(g, r, StepOf(g, r))
  {
  }

  /** `out` reports the path p from s: its nodes in order, its steps in order. */
  ghost predicate Reports(g: Graph, out: PrivEscPath, p: seq<Rel>, s: Id) {
    && |out.accounts| == |p| + 1 && |out.steps| == |p|
    && ShowsAccount(g, s, out.accounts[0])
    && (forall i :: 0 <= i < |p| ==>
          ShowsStep(g, p[i], out.steps[i]) && ShowsAccount(g, p[i].dst, out.accounts[i + 1]))
  }

  /** The accounts and the steps of a path, in order. */
  method DescribePath(g: Graph, path: seq<Rel>, s: Id) returns (accounts: seq<PrivEscNode>, steps: seq<PrivEscStep>)
    requires WellFormed(g) && s in g.accounts && forall i :: 0 <= i < |path| ==> HasRel(g, path[i])
    ensures forall cost, found :: Reports(g, PrivEscPath(accounts, steps, cost, found), path, s)
  {
    var first := DescribeAccount(g, s);
    accounts, steps := [first], [];
    for i := 0 to |path|
      invariant |accounts| == i + 1 && |steps| == i && ShowsAccount(g, s, accounts[0])
      invariant forall j :: 0 <= j < i ==>
                  ShowsStep(g, path[j], steps[j]) && ShowsAccount(g, path[j].dst, accounts[j + 1])
    {
      var node := DescribeAccount(g, path[i].dst);
      StepShown(g, path[i]);
      accounts := accounts + [node];
      steps := steps + [StepOf(g, path[i])];
    }
  }

  /** Not found exactly when an account is missing or no directed path joins them;
      otherwise a path of least total effort among all paths, with its cost rounded. */
  method FindPrivEscPath(g: Graph, startId: Id, targetId: Id) returns (out: PrivEscPath)
    requires WellFormed(g)
    ensures out.found <==>
              startId in g.accounts && targetId in g.accounts && exists q :: IsPath(WeightsOf(g), q, startId, targetId)
    ensures out.found ==>
              exists p :: && Optimal(WeightsOf(g), p, startId, targetId) && Reports(g, out, p, startId)
                          && out.totalCost == Round2(Cost(WeightsOf(g), p))
    ensures !out.found ==> out == NOT_FOUND
  {
    if startId !in g.accounts || targetId !in g.accounts {
      return NOT_FOUND;
    }
    var w := WeightsOf(g);
    var found, path, cost := Dijkstra(w, startId, targetId);
    if !found {
      return NOT_FOUND;
    }
    var accounts, steps := DescribePath(g, path, startId);
    out := PrivEscPath(accounts, steps, Round2(cost), true);
    assert Reports(g, out, path, startId);
  }

  // ---------- reported cost against reported steps ----------

  function SumOfSteps(steps: seq<PrivEscStep>): real {
    if steps == [] then 0.0 else SumOfSteps(steps[..|steps| - 1]) + steps[|steps| - 1].weight
  }

  /** The steps show the weights of the path, rounded. */
  ghost predicate Rounded(w: Weights, p: seq<Rel>, steps: seq<PrivEscStep>) {
    && |steps| == |p|
    && forall i :: 0 <= i < |p| ==> p[i] in w && w[p[i]] >= 0.0 && steps[i].weight == Round2(w[p[i]])
  }

  lemma ReportIsRounded(g: Graph, out: PrivEscPath, p: seq<Rel>, s: Id)
    requires WellFormed(g) && Reports(g, out, p, s)
    ensures Rounded(WeightsOf(g), p, out.steps)
  {
    forall i | 0 <= i < |p|
      ensures p[i] in WeightsOf(g) && WeightsOf(g)[p[i]] >= 0.0 && out.steps[i].weight == Round2(WeightsOf(g)[p[i]])
    {
      assert ShowsStep(g, p[i], out.steps[i]) && HasRel(g, p[i]);
    }
  }

  lemma DriftStep(s: real, c: real, a: real, b: real, n: nat)
    requires Abs(s - c) <= 0.005 * n as real && Abs(a - b) <= 0.005
    ensures Abs((s + a) - (c + b)) <= 0.005 * (n + 1) as real
  {
  }

  lemma {:induction false} RoundingDrift(w: Weights, p: seq<Rel>, steps: seq<PrivEscStep>)
    requires Rounded(w, p, steps)
    ensures Abs(SumOfSteps(steps) - Cost(w, p)) <= 0.005 * |p| as real
  {
    if p == [] {
    } else {
      var n := |p| - 1;
      RoundingDrift(w, p[..n], steps[..n]);
      Round2Near(w[p[n]]);
      DriftStep(SumOfSteps(steps[..n]), Cost(w, p[..n]), steps[n].weight, w[p[n]], n);
    }
  }

  lemma SumOnGrid(a: real, b: real)
    requires Hundredths(a) && Hundredths(b)
    ensures Hundredths(a + b)
  {
    assert (a + b) * 100.0 == ((a * 100.0).Floor + (b * 100.0).Floor) as real;
  }

  lemma {:induction false} NoDriftOnGrid(w: Weights, p: seq<Rel>, steps: seq<PrivEscStep>)
    requires Rounded(w, p, steps) && forall i :: 0 <= i < |p| ==> Hundredths(w[p[i]])
    ensures SumOfSteps(steps) == Cost(w, p) && Hundredths(Cost(w, p))
  {
    if p == [] {
      assert Hundredths(0.0);
    } else {
      var n := |p| - 1;
      NoDriftOnGrid(w, p[..n], steps[..n]);
      Round2Near(w[p[n]]);
      SumOnGrid(Cost(w, p[..n]), w[p[n]]);
    }
  }

  /** The reported total differs from the sum of the n reported step weights by at most
      half a hundredth per step plus one. */
  lemma TotalAgainstSteps(g: Graph, out: PrivEscPath, p: seq<Rel>, s: Id)
    requires WellFormed(g) && Reports(g, out, p, s) && out.totalCost == Round2(Cost(WeightsOf(g), p))
    ensures Abs(out.totalCost - SumOfSteps(out.steps)) <= 0.005 * (|p| + 1) as real
  {
    var w := WeightsOf(g);
    CostNonNegative(w, p);
    Round2Near(Cost(w, p));
    ReportIsRounded(g, out, p, s);
    RoundingDrift(w, p, out.steps);
    DriftStep(SumOfSteps(out.steps), Cost(w, p), 0.0, out.totalCost - Cost(w, p), |p|);
  }

  /** Derived weights are whole hundredths. */
  lemma {:induction false} DerivedWeightsOnGrid(ops: seq<Op>, r: Rel)
    requires AutoOnly(ops) && HasRel(Run(ops), r)
    ensures Hundredths(RelWeight(Run(ops), r))
  {
    var before, op := ops[..|ops| - 1], ops[|ops| - 1];
    assert !op.Manual();
    if HasRel(Run(before), r) {
      DerivedWeightsOnGrid(before, r);
    }
    if op.OpDerive? {
      WeightsInRange(op.risk);
    } else if op.OpJoin? {
      WeightsInRange(op.risk);
    }
  }

  /** In a graph written by scans alone there is no difference at all. */
  lemma DerivedTotalIsExact(ops: seq<Op>, out: PrivEscPath, p: seq<Rel>, s: Id)
    requires AutoOnly(ops)
    requires Reports(Run(ops), out, p, s) && out.totalCost == Round2(Cost(WeightsOf(Run(ops)), p))
    ensures out.totalCost == SumOfSteps(out.steps)
  {
    var g := Run(ops);
    ReachableWellFormed(ops);
    ReportIsRounded(g, out, p, s);
    forall i | 0 <= i < |p| ensures Hundredths(WeightsOf(g)[p[i]]) {
      assert HasRel(g, p[i]);
      DerivedWeightsOnGrid(ops, p[i]);
    }
    NoDriftOnGrid(WeightsOf(g), p, out.steps);
    CostNonNegative(WeightsOf(g), p);
    Round2Near(Cost(WeightsOf(g), p));
  }
}
