/** From trails to the ranked answer: the enabling vulnerability of each hop, the risk of
    each path, and the final order. */
module AttackPaths {
  import opened Prelude
  import opened Rounding
  import opened AssetGraph
  import opened AttackTrails

  datatype Hop = Hop(assetId: Id, assetName: string, criticality: string, exposure: string, via: Vuln)

  datatype AttackPath = AttackPath(hops: seq<Hop>, length: int, maxRisk: real, pathRisk: real)

  // ---------- the enabling vulnerability ----------

  /** The first of the most dangerous vulnerabilities above -1; none otherwise. */
  method PickTopVuln(vulns: seq<Vuln>) returns (top: Option<Vuln>)
    ensures top == None <==> forall v :: v in vulns ==> v.risk <= -1.0
    ensures top.Some? ==>
              exists k :: && 0 <= k < |vulns| && vulns[k] == top.value
                          && (forall j :: 0 <= j < |vulns| ==> vulns[j].risk <= vulns[k].risk)
                          && (forall j :: 0 <= j < k ==> vulns[j].risk < vulns[k].risk)
  {
    top := None;
    var best := -1.0;
    ghost var k := 0;
    for i := 0 to |vulns|
      invariant top.None? ==> best == -1.0
      invariant top.Some? ==> 0 <= k < i && vulns[k] == top.value && best == top.value.risk > -1.0
      invariant forall j :: 0 <= j < i ==> vulns[j].risk <= best
      invariant top.Some? ==> forall j :: 0 <= j < k ==> vulns[j].risk < best
    {
      if vulns[i].risk > best {
        best, top, k := vulns[i].risk, Some(vulns[i]), i;
      }
    }
  }

  /** The vulnerabilities of a node that the query returns, in no particular order. */
  method ListVulns(g: Graph, ids: set<Id>) returns (vulns: seq<Vuln>)
    requires forall v :: v in ids ==> v in g.vulns
    ensures forall v :: v in ids ==> g.vulns[v] in vulns
    ensures forall x :: x in vulns ==> exists v :: v in ids && g.vulns[v] == x
  {
    vulns := [];
    var todo := ids;
    while todo != {}
      invariant todo <= ids
      invariant forall v :: v in ids && v !in todo ==> g.vulns[v] in vulns
      invariant forall x :: x in vulns ==> exists v :: v in ids && g.vulns[v] == x
    {
      var v :| v in todo;
      vulns := vulns + [g.vulns[v]];
      todo := todo - {v};
    }
  }

  /** Properties missing from the record read as zero values. */
  const NO_VULN := Vuln("", "", 0.0)

  /** The hop shows the node, and the most dangerous of its weaknesses. */
  ghost predicate Describes(g: Graph, minRisk: real, n: Id, h: Hop) {
    && n in g.assets && h.assetId == n && h.assetName == g.assets[n].name
    && h.criticality == g.assets[n].criticality && h.exposure == g.assets[n].exposure
    && (exists v :: v in WeakVulns(g, n, minRisk) && g.vulns[v] == h.via)
    && (forall v :: v in WeakVulns(g, n, minRisk) ==> g.vulns[v].risk <= h.via.risk)
  }

  /** Every vulnerability the query lists can be picked. In reachable graphs all can: their
      risks are scores. */
  ghost predicate Pickable(g: Graph, minRisk: real) {
    WellFormed(g) || minRisk > -1.0
  }

  method DescribeHop(g: Graph, minRisk: real, n: Id) returns (h: Hop)
    requires n in g.assets && Weak(g, n, minRisk)
    ensures h.assetId == n
    ensures Pickable(g, minRisk) ==> Describes(g, minRisk, n, h)
  {
    var node := g.assets[n];
    var vulns := ListVulns(g, WeakVulns(g, n, minRisk));
    var top := PickTopVuln(vulns);
    h := Hop(n, node.name, node.criticality, node.exposure, if top.Some? then top.value else NO_VULN);
    ghost var pickable := Pickable(g, minRisk);
    if pickable {
      ghost var v :| v in WeakVulns(g, n, minRisk);
      assert g.vulns[v] in vulns && g.vulns[v].risk > -1.0;
      assert top.Some? && top.value in vulns;
    }
  }

  // ---------- the risk of a path ----------

  function SumRisk(hops: seq<Hop>): real {
    if hops == [] then 0.0 else SumRisk(hops[..|hops| - 1]) + hops[|hops| - 1].via.risk
  }

  /** n-fold sum of c. */
  function Times(c: real, n: nat): real {
    if n == 0 then 0.0 else Times(c, n - 1) + c
  }

  /** The sum adds up hop by hop. */
  lemma {:induction false} SumRiskConcat(xs: seq<Hop>, ys: seq<Hop>)
    ensures SumRisk(xs + ys) == SumRisk(xs) + SumRisk(ys)
    ensures |xs| == 1 ==> SumRisk(xs) == xs[0].via.risk
  {
    if ys == [] {
      assert xs + ys == xs;
    } else {
      assert (xs + ys)[..|xs + ys| - 1] == xs + ys[..|ys| - 1];
      SumRiskConcat(xs, ys[..|ys| - 1]);
    }
  }

  lemma {:induction false} SumRiskBounds(hops: seq<Hop>, lo: real, hi: real)
    requires forall i :: 0 <= i < |hops| ==> lo <= hops[i].via.risk <= hi
    ensures Times(lo, |hops|) <= SumRisk(hops) <= Times(hi, |hops|)
  {
    if hops == [] {
    } else {
      SumRiskBounds(hops[..|hops| - 1], lo, hi);
    }
  }

  lemma {:induction false} TimesIsProduct(c: real, n: nat)
    ensures Times(c, n) == c * n as real
  {
    if n == 0 {
    } else {
      TimesIsProduct(c, n - 1);
      assert c * n as real == c * (n - 1) as real + c;
    }
  }

  lemma {:induction false} AverageOfTimes(c: real, n: nat)
    requires n > 0
    ensures Times(c, n) / n as real == c
  {
    TimesIsProduct(c, n);
  }

  lemma DivideMonotone(x: real, y: real, n: real)
    requires x <= y && n > 0.0
    ensures x / n <= y / n
  {
    assert y / n - x / n == (y - x) / n;
  }

  /** Highest enabling risk (at least zero) and rounded average of a non-empty path. */
  ghost predicate Scored(p: AttackPath) {
    && p.hops != [] && p.length == |p.hops| - 1
    && (forall i :: 0 <= i < |p.hops| ==> p.hops[i].via.risk <= p.maxRisk)
    && p.maxRisk >= 0.0 && (p.maxRisk == 0.0 || exists i :: 0 <= i < |p.hops| && p.hops[i].via.risk == p.maxRisk)
    && p.pathRisk == Round2(SumRisk(p.hops) / |p.hops| as real)
  }

  method ScorePath(hops: seq<Hop>) returns (p: AttackPath)
    requires hops != []
    ensures Scored(p) && p.hops == hops
  {
    var maxRisk, sumRisk := 0.0, 0.0;
    for i := 0 to |hops|
      invariant maxRisk >= 0.0 && forall j :: 0 <= j < i ==> hops[j].via.risk <= maxRisk
      invariant maxRisk == 0.0 || exists j :: 0 <= j < i && hops[j].via.risk == maxRisk
      invariant sumRisk == SumRisk(hops[..i])
    {
      if hops[i].via.risk > maxRisk {
        maxRisk := hops[i].via.risk;
      }
      sumRisk := sumRisk + hops[i].via.risk;
      assert hops[..i + 1][..i] == hops[..i];
    }
    assert hops[..|hops|] == hops;
    p := AttackPath(hops, |hops| - 1, maxRisk, Round2(sumRisk / |hops| as real));
  }

  lemma RiskBounds(p: AttackPath, minRisk: real)
    requires Scored(p)
    requires forall i :: 0 <= i < |p.hops| ==> minRisk <= p.hops[i].via.risk && Hundredths(p.hops[i].via.risk)
    ensures Round2(minRisk) <= p.pathRisk <= p.maxRisk
  {
    var n, sum := |p.hops|, SumRisk(p.hops);
    SumRiskBounds(p.hops, minRisk, p.maxRisk);
    AverageOfTimes(minRisk, n);
    AverageOfTimes(p.maxRisk, n);
    DivideMonotone(Times(minRisk, n), sum, n as real);
    DivideMonotone(sum, Times(p.maxRisk, n), n as real);
    Round2Monotone(minRisk, sum / n as real);
    Round2Monotone(sum / n as real, p.maxRisk);
    assert Hundredths(0.0);
    Round2Near(p.maxRisk);
  }

  /** The aggregate risk of a path lies between the rounded threshold and its worst hop. */
  lemma PathRiskBounds(g: Graph, minRisk: real, p: AttackPath)
    requires WellFormed(g) && minRisk >= 0.0 && Scored(p)
    requires forall i :: 0 <= i < |p.hops| ==> Describes(g, minRisk, p.hops[i].assetId, p.hops[i])
    ensures Round2(minRisk) <= p.pathRisk <= p.maxRisk
  {
    forall i | 0 <= i < |p.hops| ensures minRisk <= p.hops[i].via.risk && Hundredths(p.hops[i].via.risk) {
      var h := p.hops[i];
      var v :| v in WeakVulns(g, h.assetId, minRisk) && g.vulns[v] == h.via;
    }
    RiskBounds(p, minRisk);
  }

  // ---------- ranking ----------

  /** Most dangerous first, then shortest. */
  predicate Before(a: AttackPath, b: AttackPath) {
    if a.maxRisk != b.maxRisk then a.maxRisk > b.maxRisk else a.length < b.length
  }

  function Insert(sorted: seq<AttackPath>, p: AttackPath): seq<AttackPath> {
    var n := |sorted| - 1;
    if sorted != [] && Before(p, sorted[n]) then Insert(sorted[..n], p) + [sorted[n]] else sorted + [p]
  }

  /** The stable sort the query result goes through. */
  function Ranked(paths: seq<AttackPath>): seq<AttackPath> {
    if paths == [] then [] else Insert(Ranked(paths[..|paths| - 1]), paths[|paths| - 1])
  }

  ghost predicate InOrder(paths: seq<AttackPath>) {
    forall i, j :: 0 <= i < j < |paths| ==> !Before(paths[j], paths[i])
  }

  /** The paths that tie on a given pair of keys, in order of appearance. */
  function Ties(paths: seq<AttackPath>, maxRisk: real, length: int): seq<AttackPath> {
    if paths == [] then [] else
    var n := |paths| - 1;
    Ties(paths[..n], maxRisk, length)
      + if paths[n].maxRisk == maxRisk && paths[n].length == length then [paths[n]] else []
  }

  /** Greater risk first; among equal risks, shorter first. */
  lemma InOrderMeans(paths: seq<AttackPath>)
    requires InOrder(paths)
    ensures forall i, j :: 0 <= i < j < |paths| ==>
              || paths[i].maxRisk > paths[j].maxRisk
              || (paths[i].maxRisk == paths[j].maxRisk && paths[i].length <= paths[j].length)
  {
  }

  /** Ties picks the paths with just these keys, in order. */
  lemma {:induction false} TiesConcat(xs: seq<AttackPath>, ys: seq<AttackPath>, maxRisk: real, length: int)
    ensures Ties(xs + ys, maxRisk, length) == Ties(xs, maxRisk, length) + Ties(ys, maxRisk, length)
    ensures |xs| == 1 ==>
              Ties(xs, maxRisk, length) == if xs[0].maxRisk == maxRisk && xs[0].length == length then xs else []
  {
    if ys == [] {
      assert xs + ys == xs;
    } else {
      assert (xs + ys)[..|xs + ys| - 1] == xs + ys[..|ys| - 1];
      TiesConcat(xs, ys[..|ys| - 1], maxRisk, length);
    }
  }

  lemma InOrderSnoc(front: seq<AttackPath>, last: AttackPath)
    requires InOrder(front) && forall q :: q in front ==> !Before(last, q)
    ensures InOrder(front + [last])
  {
  }

  lemma {:induction false} InsertKeeps(sorted: seq<AttackPath>, p: AttackPath)
    ensures multiset(Insert(sorted, p)) == multiset(sorted) + multiset{p}
  {
    var n := |sorted| - 1;
    if sorted != [] && Before(p, sorted[n]) {
      InsertKeeps(sorted[..n], p);
      assert sorted == sorted[..n] + [sorted[n]];
    }
  }

  lemma {:induction false} InsertRanks(sorted: seq<AttackPath>, p: AttackPath)
    requires InOrder(sorted)
    ensures InOrder(Insert(sorted, p))
  {
    var n := |sorted| - 1;
    if sorted != [] && Before(p, sorted[n]) {
      InsertRanks(sorted[..n], p);
      var front := Insert(sorted[..n], p);
      InsertKeeps(sorted[..n], p);
      forall q | q in front ensures !Before(sorted[n], q) {
        assert q in multiset(front);
        assert q == p || q in sorted[..n];
      }
      InOrderSnoc(front, sorted[n]);
    } else {
      forall q | q in sorted ensures !Before(p, q) {
        var i :| 0 <= i < |sorted| && sorted[i] == q;
        assert i == n || !Before(sorted[n], sorted[i]);
      }
      InOrderSnoc(sorted, p);
    }
  }

  lemma {:induction false} InsertIsStable(sorted: seq<AttackPath>, p: AttackPath, maxRisk: real, length: int)
    ensures Ties(Insert(sorted, p), maxRisk, length) == Ties(sorted + [p], maxRisk, length)
  {
    var n := |sorted| - 1;
    assert (sorted + [p])[..|sorted|] == sorted;
    if sorted != [] && Before(p, sorted[n]) {
      InsertIsStable(sorted[..n], p, maxRisk, length);
      var front := Insert(sorted[..n], p);
      assert (front + [sorted[n]])[..|front|] == front;
      assert (sorted[..n] + [p])[..n] == sorted[..n];
    }
  }

  lemma {:induction false} RankedIsSorted(paths: seq<AttackPath>)
    ensures InOrder(Ranked(paths))
  {
    if paths == [] {
    } else {
      var n := |paths| - 1;
      RankedIsSorted(paths[..n]);
      InsertRanks(Ranked(paths[..n]), paths[n]);
    }
  }

  lemma SnocBag<T>(s: seq<T>)
    requires s != []
    ensures multiset(s) == multiset(s[..|s| - 1]) + multiset{s[|s| - 1]}
  {
    assert s == s[..|s| - 1] + [s[|s| - 1]];
  }

  lemma {:induction false} RankedIsPermutation(paths: seq<AttackPath>)
    ensures multiset(Ranked(paths)) == multiset(paths)
  {
    if paths == [] {
    } else {
      var n := |paths| - 1;
      RankedIsPermutation(paths[..n]);
      InsertKeeps(Ranked(paths[..n]), paths[n]);
      SnocBag(paths);
    }
  }

  lemma {:induction false} RankedKeepsTies(paths: seq<AttackPath>, maxRisk: real, length: int)
    ensures Ties(Ranked(paths), maxRisk, length) == Ties(paths, maxRisk, length)
  {
    if paths == [] {
    } else {
      var n := |paths| - 1;
      var before := Ranked(paths[..n]);
      RankedKeepsTies(paths[..n], maxRisk, length);
      InsertIsStable(before, paths[n], maxRisk, length);
      assert (before + [paths[n]])[..|before|] == before;
    }
  }

  /** The ranked answer is a stable sorted permutation of the query rows. */
  lemma RankedIsStableSort(paths: seq<AttackPath>)
    ensures var out := Ranked(paths);
            forall i, j :: 0 <= i < j < |out| ==>
              || out[i].maxRisk > out[j].maxRisk
              || (out[i].maxRisk == out[j].maxRisk && out[i].length <= out[j].length)
    ensures multiset(Ranked(paths)) == multiset(paths)
    ensures forall maxRisk, length :: Ties(Ranked(paths), maxRisk, length) == Ties(paths, maxRisk, length)
  {
    RankedIsSorted(paths);
    InOrderMeans(Ranked(paths));
    RankedIsPermutation(paths);
    forall maxRisk, length ensures Ties(Ranked(paths), maxRisk, length) == Ties(paths, maxRisk, length) {
      RankedKeepsTies(paths, maxRisk, length);
    }
  }

  // ---------- the whole query ----------

  function Nodes(p: AttackPath): seq<Id> {
    seq(|p.hops|, i requires 0 <= i < |p.hops| => p.hops[i].assetId)
  }

  method PathOf(g: Graph, minRisk: real, t: seq<Id>) returns (p: AttackPath)
    requires t != [] && forall i :: 0 <= i < |t| ==> t[i] in g.assets && Weak(g, t[i], minRisk)
    ensures Nodes(p) == t && Scored(p)
    ensures Pickable(g, minRisk) ==> forall i :: 0 <= i < |p.hops| ==> Describes(g, minRisk, t[i], p.hops[i])
  {
    var hops: seq<Hop> := [];
    for i := 0 to |t|
      invariant |hops| == i && forall j :: 0 <= j < i ==> hops[j].assetId == t[j]
      invariant Pickable(g, minRisk) ==> forall j :: 0 <= j < i ==> Describes(g, minRisk, t[j], hops[j])
    {
      var h := DescribeHop(g, minRisk, t[i]);
      hops := hops + [h];
    }
    p := ScorePath(hops);
  }

  /** One scored path per row, in row order. */
  ghost predicate Answers(g: Graph, minRisk: real, rows: seq<seq<Id>>, paths: seq<AttackPath>) {
    && |paths| == |rows|
    && forall i :: 0 <= i < |rows| ==>
         && Nodes(paths[i]) == rows[i] && Scored(paths[i])
         && (Pickable(g, minRisk) ==> forall j :: 0 <= j < |paths[i].hops| ==>
             Describes(g, minRisk, rows[i][j], paths[i].hops[j]))
  }

  lemma AnswersGrow(g: Graph, minRisk: real, rows: seq<seq<Id>>, paths: seq<AttackPath>, i: nat, p: AttackPath)
    requires i < |rows| && Answers(g, minRisk, rows[..i], paths)
    requires Nodes(p) == rows[i] && Scored(p)
    requires Pickable(g, minRisk) ==> forall j :: 0 <= j < |p.hops| ==> Describes(g, minRisk, rows[i][j], p.hops[j])
    ensures Answers(g, minRisk, rows[..i + 1], paths + [p])
  {
  }

  method ScoredRows(g: Graph, target: Id, minRisk: real, hops: int) returns (rows: seq<seq<Id>>, paths: seq<AttackPath>)
    requires 1 <= hops
    ensures Rows(g, target, minRisk, hops, rows) && Complete(g, target, minRisk, hops, hops + 1, rows)
    ensures Answers(g, minRisk, rows, paths)
  {
    rows := FindTrails(g, target, minRisk, hops);
    paths := [];
    for i := 0 to |rows|
      invariant Answers(g, minRisk, rows[..i], paths)
    {
      assert AttackTrail(g, target, minRisk, hops, rows[i]);
      var p := PathOf(g, minRisk, rows[i]);
      AnswersGrow(g, minRisk, rows, paths, i, p);
      paths := paths + [p];
    }
    assert rows[..|rows|] == rows;
  }

  /** A path of the answer follows an attack trail, shows each node's most dangerous
      weakness, and carries the scores of its hops. */
  ghost predicate GoodPath(g: Graph, target: Id, minRisk: real, hops: int, p: AttackPath) {
    && AttackTrail(g, target, minRisk, hops, Nodes(p)) && Scored(p)
    && (Pickable(g, minRisk) ==> forall j :: 0 <= j < |p.hops| ==> Describes(g, minRisk, Nodes(p)[j], p.hops[j]))
  }

  /** A trail is answered, or fifty others that are no longer are. */
  ghost predicate Covered(out: seq<AttackPath>, t: seq<Id>) {
    || (exists p :: p in out && Nodes(p) == t)
    || (|out| == 50 && forall p :: p in out ==> |Nodes(p)| <= |t|)
  }

  ghost predicate DistinctTrails(paths: seq<AttackPath>) {
    forall i, j :: 0 <= i < j < |paths| ==> Nodes(paths[i]) != Nodes(paths[j])
  }

  lemma RankedKeepsPaths(paths: seq<AttackPath>)
    ensures |Ranked(paths)| == |paths|
    ensures forall p :: p in Ranked(paths) <==> p in paths
  {
    RankedIsPermutation(paths);
    assert |multiset(Ranked(paths))| == |multiset(paths)|;
    forall p ensures p in Ranked(paths) <==> p in paths {
      assert p in multiset(Ranked(paths)) <==> p in multiset(paths);
    }
  }

  lemma {:induction false} DistinctSnoc(front: seq<AttackPath>, last: AttackPath)
    requires DistinctTrails(front) && forall q :: q in front ==> Nodes(q) != Nodes(last)
    ensures DistinctTrails(front + [last])
  {
  }

  lemma {:induction false} InsertIsDistinct(sorted: seq<AttackPath>, p: AttackPath)
    requires DistinctTrails(sorted) && forall q :: q in sorted ==> Nodes(q) != Nodes(p)
    ensures DistinctTrails(Insert(sorted, p))
  {
    var n := |sorted| - 1;
    if sorted != [] && Before(p, sorted[n]) {
      InsertIsDistinct(sorted[..n], p);
      InsertKeeps(sorted[..n], p);
      var front := Insert(sorted[..n], p);
      forall q | q in front ensures Nodes(q) != Nodes(sorted[n]) {
        assert q in multiset(front);
        assert q == p || q in sorted[..n];
      }
      DistinctSnoc(front, sorted[n]);
    } else {
      DistinctSnoc(sorted, p);
    }
  }

  lemma {:induction false} RankedIsDistinct(paths: seq<AttackPath>)
    requires DistinctTrails(paths)
    ensures DistinctTrails(Ranked(paths))
  {
    if paths == [] {
    } else {
      var n := |paths| - 1;
      RankedIsDistinct(paths[..n]);
      RankedKeepsPaths(paths[..n]);
      InsertIsDistinct(Ranked(paths[..n]), paths[n]);
    }
  }

  lemma AnswerIsSound(g: Graph, target: Id, minRisk: real, hops: int, rows: seq<seq<Id>>, paths: seq<AttackPath>,
                      p: AttackPath)
    requires Rows(g, target, minRisk, hops, rows) && Answers(g, minRisk, rows, paths)
    requires p in paths
    ensures GoodPath(g, target, minRisk, hops, p)
  {
    var i :| 0 <= i < |paths| && paths[i] == p;
    assert AttackTrail(g, target, minRisk, hops, rows[i]) && Nodes(paths[i]) == rows[i];
  }

  lemma AnswerHolds(g: Graph, target: Id, minRisk: real, hops: int, rows: seq<seq<Id>>, paths: seq<AttackPath>)
    requires Rows(g, target, minRisk, hops, rows) && Answers(g, minRisk, rows, paths)
    ensures var out := Ranked(paths); |out| == |paths| && InOrder(out) && DistinctTrails(out)
    ensures forall p :: p in Ranked(paths) ==> GoodPath(g, target, minRisk, hops, p)
  {
    RankedKeepsPaths(paths);
    RankedIsSorted(paths);
    assert forall i :: 0 <= i < |rows| ==> Nodes(paths[i]) == rows[i];
    RankedIsDistinct(paths);
    forall p | p in Ranked(paths) ensures GoodPath(g, target, minRisk, hops, p) {
      AnswerIsSound(g, target, minRisk, hops, rows, paths, p);
    }
  }

  lemma AnswerIsComplete(g: Graph, target: Id, minRisk: real, hops: nat, rows: seq<seq<Id>>, paths: seq<AttackPath>,
                         t: seq<Id>)
    requires |paths| == |rows| <= ROW_LIMIT && forall i :: 0 <= i < |rows| ==> Nodes(paths[i]) == rows[i]
    requires Complete(g, target, minRisk, hops, hops + 1, rows)
    requires AttackTrail(g, target, minRisk, hops, t)
    ensures Covered(Ranked(paths), t)
  {
    RankedKeepsPaths(paths);
    if t in rows {
      var i :| 0 <= i < |rows| && rows[i] == t;
      assert paths[i] in paths && Nodes(paths[i]) == t;
    } else {
      forall p | p in paths ensures |Nodes(p)| <= |t| {
        var i :| 0 <= i < |paths| && paths[i] == p;
        assert Nodes(p) == rows[i];
      }
    }
  }

  /** Sound, complete up to the limit, without repetition, and ranked. */
  method FindAttackPaths(g: Graph, target: Id, minRisk: real, maxHops: int) returns (out: seq<AttackPath>)
    ensures |out| <= 50 && DistinctTrails(out)
    ensures forall i, j :: 0 <= i < j < |out| ==>
              || out[i].maxRisk > out[j].maxRisk
              || (out[i].maxRisk == out[j].maxRisk && out[i].length <= out[j].length)
    ensures forall p :: p in out ==> GoodPath(g, target, minRisk, NormaliseHops(maxHops), p)
    ensures forall t :: AttackTrail(g, target, minRisk, NormaliseHops(maxHops), t) ==> Covered(out, t)
  {
    var hops := NormaliseHops(maxHops);
    var rows, paths := ScoredRows(g, target, minRisk, hops);
    out := Ranked(paths);
    AnswerHolds(g, target, minRisk, hops, rows, paths);
    InOrderMeans(out);
    forall t | AttackTrail(g, target, minRisk, hops, t) ensures Covered(out, t) {
      AnswerIsComplete(g, target, minRisk, hops, rows, paths, t);
    }
  }

  /** Its aggregate risk is between the threshold and its worst hop. */
  lemma GoodPathBounds(g: Graph, target: Id, minRisk: real, hops: int, p: AttackPath)
    requires WellFormed(g) && minRisk >= 0.0 && GoodPath(g, target, minRisk, hops, p)
    ensures Round2(minRisk) <= p.pathRisk <= p.maxRisk
  {
    assert forall j :: 0 <= j < |p.hops| ==> p.hops[j].assetId == Nodes(p)[j];
    PathRiskBounds(g, minRisk, p);
  }
}
