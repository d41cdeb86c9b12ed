/** The attack-path query: all trails from an exposed asset to the target over weak
    assets, shortest first, at most fifty. */
module AttackTrails {
  import opened Prelude
  import opened AssetGraph

  const ROW_LIMIT := 50

  function NormaliseHops(maxHops: int): (hops: int)
    ensures 1 <= hops <= 8
    ensures 1 <= maxHops <= 8 ==> hops == maxHops
    ensures maxHops < 1 ==> hops == 4
    ensures maxHops > 8 ==> hops == 8
  {
    if maxHops < 1 then 4 else if maxHops > 8 then 8 else maxHops
  }

  function WeakVulns(g: Graph, n: Id, minRisk: real): set<Id> {
    set v | v in g.vulns && (n, v) in g.hasVuln && g.vulns[v].risk >= minRisk
  }

  /** The asset carries a vulnerability of at least the asked risk. */
  predicate Weak(g: Graph, n: Id, minRisk: real) {
    WeakVulns(g, n, minRisk) != {}
  }

  /** The i-th relationship of a trail. */
  function Edge(t: seq<Id>, i: int): (Id, Id)
    requires 0 <= i < |t| - 1
  {
    (t[i], t[i + 1])
  }

  /** A chain of weak assets ending in the target that never takes a reachability
      relationship twice. */
  ghost predicate TrailTo(g: Graph, target: Id, minRisk: real, t: seq<Id>) {
    && t != [] && t[|t| - 1] == target
    && (forall i :: 0 <= i < |t| ==> t[i] in g.assets && Weak(g, t[i], minRisk))
    && (forall i :: 0 <= i < |t| - 1 ==> Edge(t, i) in g.reach)
    && (forall i, j :: 0 <= i < j < |t| - 1 ==> Edge(t, i) != Edge(t, j))
  }

  /** What the query asks for. */
  ghost predicate AttackTrail(g: Graph, target: Id, minRisk: real, hops: int, t: seq<Id>) {
    && TrailTo(g, target, minRisk, t)
    && 2 <= |t| <= hops + 1
    && g.assets[t[0]].exposure == "external"
  }

  /** The reachability links a trail takes, in order. */
  function LinksOf(t: seq<Id>): seq<(Id, Id)>
    requires t != []
  {
    seq(|t| - 1, i requires 0 <= i < |t| - 1 => (t[i], t[i + 1]))
  }

  /** In elementary terms: from an external asset to the target over 1 to `hops` links,
      none taken twice, every asset carrying a vulnerability of at least the asked risk. */
  ghost predicate Walk(g: Graph, target: Id, minRisk: real, hops: int, t: seq<Id>) {
    && t != [] && 1 <= |LinksOf(t)| <= hops && t[|t| - 1] == target
    && (forall n :: n in t ==> n in g.assets)
    && (forall n :: n in t ==> exists v :: v in g.vulns && (n, v) in g.hasVuln && g.vulns[v].risk >= minRisk)
    && (forall e :: e in LinksOf(t) ==> e in g.reach)
    && NoRepeats(LinksOf(t))
    && t[0] in t && g.assets[t[0]].exposure == "external"
  }

  lemma TrailIsWalk(g: Graph, target: Id, minRisk: real, hops: int, t: seq<Id>)
    requires AttackTrail(g, target, minRisk, hops, t)
    ensures Walk(g, target, minRisk, hops, t)
  {
    forall n | n in t ensures exists v :: v in g.vulns && (n, v) in g.hasVuln && g.vulns[v].risk >= minRisk {
      var i :| 0 <= i < |t| && t[i] == n;
      var v :| v in WeakVulns(g, n, minRisk);
    }
    assert forall i :: 0 <= i < |t| - 1 ==> LinksOf(t)[i] == Edge(t, i);
  }

  lemma WalkIsTrail(g: Graph, target: Id, minRisk: real, hops: int, t: seq<Id>)
    requires Walk(g, target, minRisk, hops, t)
    ensures AttackTrail(g, target, minRisk, hops, t)
  {
    forall i | 0 <= i < |t| ensures t[i] in g.assets && Weak(g, t[i], minRisk) {
      assert t[i] in t;
      var v :| v in g.vulns && (t[i], v) in g.hasVuln && g.vulns[v].risk >= minRisk;
      assert v in WeakVulns(g, t[i], minRisk);
    }
    forall i | 0 <= i < |t| - 1 ensures Edge(t, i) == LinksOf(t)[i] && Edge(t, i) in g.reach {
      assert LinksOf(t)[i] in LinksOf(t);
    }
  }

  lemma AttackTrailIff(g: Graph, target: Id, minRisk: real, hops: int, t: seq<Id>)
    ensures AttackTrail(g, target, minRisk, hops, t) <==> Walk(g, target, minRisk, hops, t)
  {
    if AttackTrail(g, target, minRisk, hops, t) {
      TrailIsWalk(g, target, minRisk, hops, t);
    }
    if Walk(g, target, minRisk, hops, t) {
      WalkIsTrail(g, target, minRisk, hops, t);
    }
  }

  predicate Extends(g: Graph, minRisk: real, u: Id, t: seq<Id>) {
    && t != [] && (u, t[0]) in g.reach && Weak(g, u, minRisk)
    && forall i :: 0 <= i < |t| - 1 ==> Edge(t, i) != (u, t[0])
  }

  function FirstLevel(g: Graph, target: Id, minRisk: real): set<seq<Id>> {
    if target in g.assets && Weak(g, target, minRisk) then {[target]} else {}
  }

  function NextLevel(g: Graph, minRisk: real, level: set<seq<Id>>): set<seq<Id>> {
    set t, u | t in level && u in g.assets && Extends(g, minRisk, u, t) :: [u] + t
  }

  /** All trails with k relationships. */
  ghost predicate IsLevel(g: Graph, target: Id, minRisk: real, k: nat, level: set<seq<Id>>) {
    forall t :: t in level <==> TrailTo(g, target, minRisk, t) && |t| == k + 1
  }

  lemma EdgesOfExtension(u: Id, t: seq<Id>)
    requires t != []
    ensures Edge([u] + t, 0) == (u, t[0])
    ensures forall i :: 0 <= i < |t| - 1 ==> Edge([u] + t, i + 1) == Edge(t, i)
    ensures forall i :: 0 < i < |t| ==> Edge([u] + t, i) == Edge(t, i - 1)
  {
  }

  lemma ExtendTrail(g: Graph, target: Id, minRisk: real, u: Id, t: seq<Id>)
    requires u in g.assets && Extends(g, minRisk, u, t) && TrailTo(g, target, minRisk, t)
    ensures TrailTo(g, target, minRisk, [u] + t)
  {
    EdgesOfExtension(u, t);
  }

  lemma ShortenTrail(g: Graph, target: Id, minRisk: real, u: Id, t: seq<Id>)
    requires t != [] && TrailTo(g, target, minRisk, [u] + t)
    ensures u in g.assets && Extends(g, minRisk, u, t) && TrailTo(g, target, minRisk, t)
  {
    var t' := [u] + t;
    EdgesOfExtension(u, t);
    assert t'[0] == u && forall i :: 0 <= i < |t| ==> t[i] == t'[i + 1];
    assert Edge(t', 0) in g.reach;
    forall i | 0 <= i < |t| - 1 ensures Edge(t, i) in g.reach && Edge(t, i) != (u, t[0]) {
      assert Edge(t', i + 1) in g.reach && Edge(t', 0) != Edge(t', i + 1);
    }
    forall i, j | 0 <= i < j < |t| - 1 ensures Edge(t, i) != Edge(t, j) {
      assert Edge(t', i + 1) != Edge(t', j + 1);
    }
  }

  lemma FirstLevelExact(g: Graph, target: Id, minRisk: real)
    ensures IsLevel(g, target, minRisk, 0, FirstLevel(g, target, minRisk))
  {
    forall t | |t| == 1 && t[0] == target ensures t == [target] {
    }
  }

  lemma NextLevelExact(g: Graph, target: Id, minRisk: real, k: nat, level: set<seq<Id>>)
    requires IsLevel(g, target, minRisk, k, level)
    ensures IsLevel(g, target, minRisk, k + 1, NextLevel(g, minRisk, level))
  {
    var next := NextLevel(g, minRisk, level);
    forall t' | t' in next ensures TrailTo(g, target, minRisk, t') && |t'| == k + 2 {
      var t, u :| t in level && u in g.assets && Extends(g, minRisk, u, t) && t' == [u] + t;
      ExtendTrail(g, target, minRisk, u, t);
    }
    forall t' | TrailTo(g, target, minRisk, t') && |t'| == k + 2 ensures t' in next {
      var u, t := t'[0], t'[1..];
      assert t' == [u] + t;
      ShortenTrail(g, target, minRisk, u, t);
      assert t in level;
    }
  }

  /** Rows found so far: attack trails without repetition, shortest first. */
  ghost predicate Rows(g: Graph, target: Id, minRisk: real, hops: int, rows: seq<seq<Id>>) {
    && |rows| <= ROW_LIMIT
    && (forall i :: 0 <= i < |rows| ==> AttackTrail(g, target, minRisk, hops, rows[i]))
    && (forall i, j :: 0 <= i < j < |rows| ==> rows[i] != rows[j] && |rows[i]| <= |rows[j]|)
  }

  /** Append candidates, none twice, as long as there is room. */
  method TakeUpTo<T>(found: seq<T>, candidates: set<T>, limit: nat) returns (rows: seq<T>)
    requires NoRepeats(found) && |found| <= limit && forall i :: 0 <= i < |found| ==> found[i] !in candidates
    ensures NoRepeats(rows) && |found| <= |rows| <= limit && rows[..|found|] == found
    ensures forall i :: |found| <= i < |rows| ==> rows[i] in candidates
    ensures |rows| < limit ==> forall t :: t in candidates ==> t in rows
  {
    rows := found;
    var todo := candidates;
    while todo != {} && |rows| < limit
      invariant todo <= candidates
      invariant NoRepeats(rows) && |found| <= |rows| <= limit && rows[..|found|] == found
      invariant forall i :: |found| <= i < |rows| ==> rows[i] in candidates
      invariant forall i :: 0 <= i < |rows| ==> rows[i] !in todo
      invariant forall t :: t in candidates && t !in todo ==> t in rows
      decreases |todo|
    {
      var t :| t in todo;
      rows := rows + [t];
      todo := todo - {t};
    }
  }

  function Entries(g: Graph, level: set<seq<Id>>): set<seq<Id>> {
    set t | t in level && t != [] && t[0] in g.assets && g.assets[t[0]].exposure == "external"
  }

  lemma EntriesExact(g: Graph, target: Id, minRisk: real, hops: int, k: nat, level: set<seq<Id>>)
    requires 1 <= k <= hops && IsLevel(g, target, minRisk, k, level)
    ensures forall t :: t in Entries(g, level) <==> AttackTrail(g, target, minRisk, hops, t) && |t| == k + 1
  {
  }

  lemma RowsGrow(g: Graph, target: Id, minRisk: real, hops: int, k: nat, found: seq<seq<Id>>, entries: set<seq<Id>>,
                 rows: seq<seq<Id>>)
    requires Rows(g, target, minRisk, hops, found) && forall i :: 0 <= i < |found| ==> |found[i]| <= k
    requires NoRepeats(rows) && |found| <= |rows| <= ROW_LIMIT && rows[..|found|] == found
    requires forall i :: |found| <= i < |rows| ==> rows[i] in entries
    requires forall t :: t in entries ==> AttackTrail(g, target, minRisk, hops, t) && |t| == k + 1
    ensures Rows(g, target, minRisk, hops, rows) && forall i :: 0 <= i < |rows| ==> |rows[i]| <= k + 1
  {
    assert forall i :: 0 <= i < |found| ==> rows[i] == found[i];
  }

  /** While there is room nothing of length up to k is missing, and no omitted trail is
      shorter than a row. */
  ghost predicate Complete(g: Graph, target: Id, minRisk: real, hops: int, k: nat, rows: seq<seq<Id>>) {
    && (|rows| < ROW_LIMIT ==> forall t :: AttackTrail(g, target, minRisk, hops, t) && |t| <= k ==> t in rows)
    && (forall t :: AttackTrail(g, target, minRisk, hops, t) && t !in rows ==>
          forall i :: 0 <= i < |rows| ==> |rows[i]| <= |t|)
  }

  lemma CompleteGrows(g: Graph, target: Id, minRisk: real, hops: int, k: nat, found: seq<seq<Id>>,
                      entries: set<seq<Id>>, rows: seq<seq<Id>>)
    requires Complete(g, target, minRisk, hops, k, found)
    requires |found| <= |rows| <= ROW_LIMIT && rows[..|found|] == found
    requires forall i :: 0 <= i < |rows| ==> |rows[i]| <= k + 1
    requires forall t :: t in entries <==> AttackTrail(g, target, minRisk, hops, t) && |t| == k + 1
    requires |rows| < ROW_LIMIT ==> forall t :: t in entries ==> t in rows
    ensures Complete(g, target, minRisk, hops, k + 1, rows)
  {
    forall t | AttackTrail(g, target, minRisk, hops, t) && t !in rows
      ensures |rows| < ROW_LIMIT ==> |t| > k + 1
      ensures forall i :: 0 <= i < |rows| ==> |rows[i]| <= |t|
    {
      assert t !in rows[..|found|];
      if |found| == ROW_LIMIT {
        assert rows == found;
      }
    }
  }

  /** Fewer than fifty rows are all the attack trails; fifty rows omit no shorter trail. */
  method FindTrails(g: Graph, target: Id, minRisk: real, hops: int) returns (rows: seq<seq<Id>>)
    requires 1 <= hops
    ensures Rows(g, target, minRisk, hops, rows)
    ensures Complete(g, target, minRisk, hops, hops + 1, rows)
  {
    rows := [];
    var level := FirstLevel(g, target, minRisk);
    FirstLevelExact(g, target, minRisk);
    for k := 1 to hops + 1
      invariant IsLevel(g, target, minRisk, k - 1, level)
      invariant Rows(g, target, minRisk, hops, rows) && forall i :: 0 <= i < |rows| ==> |rows[i]| <= k
      invariant Complete(g, target, minRisk, hops, k, rows)
    {
      NextLevelExact(g, target, minRisk, k - 1, level);
      level := NextLevel(g, minRisk, level);
      EntriesExact(g, target, minRisk, hops, k, level);
      var found := rows;
      rows := TakeUpTo(found, Entries(g, level), ROW_LIMIT);
      RowsGrow(g, target, minRisk, hops, k, found, Entries(g, level), rows);
      CompleteGrows(g, target, minRisk, hops, k, found, Entries(g, level), rows);
    }
  }
}
