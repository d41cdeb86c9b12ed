/** Minimum-effort escalation: paths over the weighted relationships, a shortest-path
    search with the contract the graph query promises, and the reported result. */
module EscalationPath {
  import opened PrivilegeGraph

  datatype Kind = CanEscalate | ReusesCredential

  datatype Rel = Rel(kind: Kind, src: Id, dst: Id)

  type Weights = map<Rel, real>

  function EscalationRel(k: (Id, Id)): Rel { Rel(CanEscalate, k.0, k.1) }

  function ReuseRel(k: (Id, Id)): Rel { Rel(ReusesCredential, k.0, k.1) }

  predicate HasRel(g: Graph, r: Rel) {
    if r.kind.CanEscalate? then (r.src, r.dst) in g.escalations else (r.src, r.dst) in g.reuses
  }

  function RelWeight(g: Graph, r: Rel): real
    requires HasRel(g, r)
  {
    if r.kind.CanEscalate? then g.escalations[(r.src, r.dst)].weight else g.reuses[(r.src, r.dst)].weight
  }

  function Rels(g: Graph): (rels: set<Rel>)
    ensures forall r :: r in rels <==> HasRel(g, r)
  {
    var escalations := set k | k in g.escalations :: EscalationRel(k);
    var reuses := set k | k in g.reuses :: ReuseRel(k);
    assert forall r :: r in escalations <==> r.kind.CanEscalate? && EscalationRel((r.src, r.dst)) in escalations;
    assert forall r :: r in reuses <==> r.kind.ReusesCredential? && ReuseRel((r.src, r.dst)) in reuses;
    escalations + reuses
  }

  /** The two relationship types the search traverses, with their weights. */
  function WeightsOf(g: Graph): Weights {
    map r | r in Rels(g) :: RelWeight(g, r)
  }

  // ---------- paths ----------

  predicate IsPath(w: Weights, p: seq<Rel>, s: Id, t: Id) {
    && (forall i :: 0 <= i < |p| ==> p[i] in w)
    && (forall i :: 0 < i < |p| ==> p[i].src == p[i - 1].dst)
    && (if p == [] then s == t else p[0].src == s && p[|p| - 1].dst == t)
  }

  function Cost(w: Weights, p: seq<Rel>): real
    requires forall i :: 0 <= i < |p| ==> p[i] in w
  {
    if p == [] then 0.0 else Cost(w, p[..|p| - 1]) + w[p[|p| - 1]]
  }

  /** Cheapest of all paths from s to t. */
  ghost predicate Optimal(w: Weights, p: seq<Rel>, s: Id, t: Id) {
    && IsPath(w, p, s, t)
    && forall q :: IsPath(w, q, s, t) ==> Cost(w, p) <= Cost(w, q)
  }

  ghost predicate NonNegative(w: Weights) {
    forall r :: r in w ==> w[r] >= 0.0
  }

  /** The search sees every relationship in its direction, with its weight. */
  lemma WeightsOfIs(g: Graph, x: Id, y: Id)
    ensures Rel(CanEscalate, x, y) in WeightsOf(g) <==> (x, y) in g.escalations
    ensures (x, y) in g.escalations ==> WeightsOf(g)[Rel(CanEscalate, x, y)] == g.escalations[(x, y)].weight
    ensures Rel(ReusesCredential, x, y) in WeightsOf(g) <==> (x, y) in g.reuses
    ensures (x, y) in g.reuses ==> WeightsOf(g)[Rel(ReusesCredential, x, y)] == g.reuses[(x, y)].weight
  {
    assert Rel(CanEscalate, x, y) in Rels(g) <==> HasRel(g, Rel(CanEscalate, x, y));
    assert Rel(ReusesCredential, x, y) in Rels(g) <==> HasRel(g, Rel(ReusesCredential, x, y));
  }

  lemma CostOfOne(w: Weights, r: Rel)
    requires r in w
    ensures Cost(w, []) == 0.0 && Cost(w, [r]) == w[r]
  {
    assert [r][..0] == [];
  }

  /** The cost of a path is the sum over its parts. */
  lemma {:induction false} CostOfParts(w: Weights, p: seq<Rel>, n: nat)
    requires (forall i :: 0 <= i < |p| ==> p[i] in w) && n <= |p|
    ensures Cost(w, p) == Cost(w, p[..n]) + Cost(w, p[n..])
  {
    if n == |p| {
      assert p[..n] == p && p[n..] == [];
    } else {
      var m := |p| - 1;
      CostOfParts(w, p[..m], n);
      assert p[..m][..n] == p[..n];
      assert p[n..][..m - n] == p[..m][n..] && p[n..][m - n] == p[m];
    }
  }

  /** A manual escalation between existing accounts opens a path of one step from the first
      to the second, of the weight sent, or of 1 when that is not positive. */
  lemma AddedEscalation(g: Graph, from: Id, to: Id, technique: string, cwe: string, weight: real)
    requires from in g.accounts && to in g.accounts
    ensures var w := WeightsOf(Step(g, OpAddEscalation(from, to, technique, cwe, weight)));
            var p := [Rel(CanEscalate, from, to)];
            IsPath(w, p, from, to) && Cost(w, p) == if weight > 0.0 then weight else 1.0
  {
    var g' := Step(g, OpAddEscalation(from, to, technique, cwe, weight));
    WeightsOfIs(g', from, to);
    CostOfOne(WeightsOf(g'), Rel(CanEscalate, from, to));
  }

  /** Likewise a manual reuse, of weight 3 when the one sent is not positive. */
  lemma AddedReuse(g: Graph, from: Id, to: Id, weight: real)
    requires from in g.accounts && to in g.accounts
    ensures var w := WeightsOf(Step(g, OpAddReuse(from, to, weight)));
            var p := [Rel(ReusesCredential, from, to)];
            IsPath(w, p, from, to) && Cost(w, p) == if weight > 0.0 then weight else 3.0
  {
    var g' := Step(g, OpAddReuse(from, to, weight));
    WeightsOfIs(g', from, to);
    CostOfOne(WeightsOf(g'), Rel(ReusesCredential, from, to));
  }

  lemma PathExtend(w: Weights, p: seq<Rel>, s: Id, r: Rel)
    requires IsPath(w, p, s, r.src) && r in w
    ensures IsPath(w, p + [r], s, r.dst) && Cost(w, p + [r]) == Cost(w, p) + w[r]
  {
    assert (p + [r])[..|p|] == p;
  }

  lemma PathInit(w: Weights, p: seq<Rel>, s: Id, t: Id)
    requires IsPath(w, p, s, t) && p != []
    ensures IsPath(w, p[..|p| - 1], s, p[|p| - 1].src) && p[|p| - 1].dst == t
  {
    if |p| > 1 {
      assert p[|p| - 1].src == p[|p| - 2].dst;
    }
  }

  lemma {:induction false} CostNonNegative(w: Weights, p: seq<Rel>)
    requires NonNegative(w) && forall i :: 0 <= i < |p| ==> p[i] in w
    ensures Cost(w, p) >= 0.0
  {
    if p == [] {
    } else {
      CostNonNegative(w, p[..|p| - 1]);
    }
  }

  // ---------- the search ----------

  /** Best known way to a node. */
  datatype Label = Label(cost: real, path: seq<Rel>)

  type Labels = map<Id, Label>

  predicate Sound(w: Weights, s: Id, labels: Labels) {
    && s in labels && labels[s].cost <= 0.0
    && forall v :: v in labels ==> IsPath(w, labels[v].path, s, v) && Cost(w, labels[v].path) == labels[v].cost
  }

  /** Settled nodes are no dearer than open ones, and all their relationships have been
      followed. */
  ghost predicate Settled(w: Weights, labels: Labels, done: set<Id>) {
    && (forall u :: u in done ==> u in labels)
    && (forall u, v :: u in done && v in labels && v !in done ==> labels[u].cost <= labels[v].cost)
    && (forall r :: r in w && r.src in done ==> r.dst in labels && labels[r.dst].cost <= labels[r.src].cost + w[r])
  }

  function Relax(w: Weights, labels: Labels, r: Rel): Labels
    requires r in w && r.src in labels
  {
    var c := labels[r.src].cost + w[r];
    if r.dst !in labels || c < labels[r.dst].cost
    then labels[r.dst := Label(c, labels[r.src].path + [r])] else labels
  }

  /** A path either ends in a settled node that is no dearer than it, or some open node
      is no dearer than it. */
  lemma {:induction false} Frontier(w: Weights, s: Id, labels: Labels, done: set<Id>, q: seq<Rel>, x: Id)
    requires NonNegative(w) && Sound(w, s, labels) && Settled(w, labels, done) && IsPath(w, q, s, x)
    ensures (x in done && labels[x].cost <= Cost(w, q))
            || exists f :: f in labels && f !in done && labels[f].cost <= Cost(w, q)
  {
    if q == [] {
    } else {
      var r, q' := q[|q| - 1], q[..|q| - 1];
      PathInit(w, q, s, x);
      Frontier(w, s, labels, done, q', r.src);
      if r.src in done && labels[r.src].cost <= Cost(w, q') {
        assert labels[x].cost <= Cost(w, q);
      }
    }
  }

  method Cheapest(labels: Labels, done: set<Id>) returns (u: Id)
    requires labels.Keys - done != {}
    ensures u in labels && u !in done
    ensures forall v :: v in labels && v !in done ==> labels[u].cost <= labels[v].cost
  {
    var todo := labels.Keys - done;
    u :| u in todo;
    todo := todo - {u};
    while todo != {}
      invariant todo <= labels.Keys - done
      invariant u in labels && u !in done
      invariant forall v :: v in labels && v !in done && v !in todo ==> labels[u].cost <= labels[v].cost
    {
      var v :| v in todo;
      if labels[v].cost < labels[u].cost {
        u := v;
      }
      todo := todo - {v};
    }
  }

  lemma RelaxSound(w: Weights, s: Id, labels: Labels, r: Rel)
    requires NonNegative(w) && Sound(w, s, labels) && r in w && r.src in labels
    ensures Sound(w, s, Relax(w, labels, r))
  {
    PathExtend(w, labels[r.src].path, s, r);
  }

  /** Progress of following the relationships of u, all but those in todo. */
  ghost predicate Expanding(w: Weights, labels: Labels, l: Labels, done: set<Id>, u: Id, todo: set<Rel>) {
    && labels.Keys <= l.Keys && u in labels
    && (forall v :: v in labels ==> l[v].cost <= labels[v].cost)
    && (forall d :: d in done ==> d in labels && l[d] == labels[d])
    && l[u] == labels[u]
    && (forall v :: v in l && v !in done ==> l[u].cost <= l[v].cost)
    && (forall r :: r in w && r.src == u && r !in todo ==> r.dst in l && l[r.dst].cost <= l[u].cost + w[r])
  }

  lemma ExpandOne(w: Weights, labels: Labels, l: Labels, done: set<Id>, u: Id, todo: set<Rel>, r: Rel)
    requires NonNegative(w) && Expanding(w, labels, l, done, u, todo) && u !in done && r in w && r.src == u
    requires forall d :: d in done ==> labels[d].cost <= labels[u].cost
    ensures Expanding(w, labels, Relax(w, l, r), done, u, todo - {r})
  {
  }

  lemma Expanded(w: Weights, labels: Labels, l: Labels, done: set<Id>, u: Id)
    requires NonNegative(w) && Settled(w, labels, done) && Expanding(w, labels, l, done, u, {}) && u !in done
    ensures Settled(w, l, done + {u})
  {
    forall r | r in w && r.src in done + {u}
      ensures r.dst in l && l[r.dst].cost <= l[r.src].cost + w[r]
    {
      if r.src in done {
        assert r.dst in labels && labels[r.dst].cost <= labels[r.src].cost + w[r];
      }
    }
  }

  lemma ExpandStep(w: Weights, s: Id, labels: Labels, l: Labels, done: set<Id>, u: Id, todo: set<Rel>, r: Rel,
                   nodes: set<Id>)
    requires NonNegative(w) && Sound(w, s, l) && Expanding(w, labels, l, done, u, todo) && u !in done
        && r in w && r.src == u
    requires forall d :: d in done ==> labels[d].cost <= labels[u].cost
    requires l.Keys <= nodes && r.dst in nodes
    ensures Sound(w, s, Relax(w, l, r)) && Expanding(w, labels, Relax(w, l, r), done, u, todo - {r})
    ensures Relax(w, l, r).Keys <= nodes
  {
    RelaxSound(w, s, l, r);
    ExpandOne(w, labels, l, done, u, todo, r);
  }

  /** Follow every relationship leaving u, which is an open node of least cost. */
  method Expand(w: Weights, s: Id, labels: Labels, done: set<Id>, u: Id, ghost nodes: set<Id>) returns (l: Labels)
    requires NonNegative(w) && Sound(w, s, labels) && Settled(w, labels, done) && u in labels && u !in done
    requires forall v :: v in labels && v !in done ==> labels[u].cost <= labels[v].cost
    requires labels.Keys <= nodes && forall r :: r in w ==> r.dst in nodes
    ensures Sound(w, s, l) && Settled(w, l, done + {u})
    ensures labels.Keys <= l.Keys <= nodes
  {
    l := labels;
    var todo := set r | r in w && r.src == u;
    while todo != {}
      invariant forall r :: r in todo ==> r in w && r.src == u
      invariant Sound(w, s, l) && Expanding(w, labels, l, done, u, todo)
      invariant l.Keys <= nodes
    {
      var r :| r in todo;
      ExpandStep(w, s, labels, l, done, u, todo, r, nodes);
      l := Relax(w, l, r);
      todo := todo - {r};
    }
    Expanded(w, labels, l, done, u);
  }

  lemma SmallerSet(a: set<Id>, b: set<Id>)
    requires a < b
    ensures |a| < |b|
  {
    var x :| x in b && x !in a;
    assert b == (b - a) + a && |b - a| > 0 by { assert x in b - a; }
  }

  /** The contract of the graph procedure: a path is found exactly when one exists, and
      it is a real path of least total weight. */
  method Dijkstra(w: Weights, s: Id, t: Id) returns (found: bool, path: seq<Rel>, cost: real)
    requires NonNegative(w)
    ensures found <==> exists q :: IsPath(w, q, s, t)
    ensures found ==> Optimal(w, path, s, t) && cost == Cost(w, path)
  {
    var labels: Labels := map[s := Label(0.0, [])];
    var done: set<Id> := {};
    ghost var nodes := {s} + set r | r in w :: r.dst;
    while labels.Keys - done != {}
      invariant Sound(w, s, labels) && Settled(w, labels, done)
      invariant done <= nodes && labels.Keys <= nodes && t !in done
      decreases |nodes - done|
    {
      var u := Cheapest(labels, done);
      if u == t {
        forall q | IsPath(w, q, s, t) ensures labels[t].cost <= Cost(w, q) {
          Frontier(w, s, labels, done, q, t);
        }
        return true, labels[t].path, labels[t].cost;
      }
      labels := Expand(w, s, labels, done, u, nodes);
      assert nodes - (done + {u}) < nodes - done by { assert u in nodes - done; }
      SmallerSet(nodes - (done + {u}), nodes - done);
      done := done + {u};
    }
    forall q | IsPath(w, q, s, t) ensures false {
      Frontier(w, s, labels, done, q, t);
    }
    return false, [], 0.0;
  }
}
