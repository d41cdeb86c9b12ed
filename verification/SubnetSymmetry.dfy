/** Whether derived reachability goes both ways, as it is meant to: the single writes of
    several workers can leave a link without its opposite, and exactly how. */
module SubnetSymmetry {
  import opened Assets
  import opened AssetGraph
  import opened SubnetReach

  // ---------- both directions? ----------

  function Back(e: (Id, Id)): (Id, Id) {
    (e.1, e.0)
  }

  /** The worker stands between the two writes of a pair. */
  predicate Halfway(s: State, w: nat) {
    w in s.works && s.works[w].half && s.works[w].peers != []
  }

  /** Some worker but `w` has written one direction and is about to write e. */
  ghost predicate OwedByOther(s: State, w: nat, e: (Id, Id)) {
    exists v :: Halfway(s, v) && v != w && Target(s.works[v]) == e
  }

  ghost predicate Owed(s: State, e: (Id, Id)) {
    exists v :: Halfway(s, v) && Target(s.works[v]) == e
  }

  /** Every relationship has its opposite, or a worker is about to write it. */
  ghost predicate Balanced(s: State) {
    forall e :: e in s.g.reach ==> Back(e) in s.g.reach || Owed(s, Back(e))
  }

  /** The second write of a pair takes effect although the first has not, and nobody else
      is about to make up for it. */
  ghost predicate LoneWrite(s: State, a: Action) {
    a.Write? && a.ok && Halfway(s, a.worker) &&
    var e := Target(s.works[a.worker]);
    Projected(s, e) && Back(e) !in s.g.reach && !OwedByOther(s, a.worker, Back(e))
  }

  /** The second write of a pair is lost, by failure or crash, after the first took effect,
      and nobody else is about to make up for it. */
  ghost predicate LostWrite(s: State, a: Action) {
    (a.Crash? || (a.Write? && !a.ok)) && Halfway(s, a.worker) &&
    var e := Target(s.works[a.worker]);
    Back(e) in s.g.reach && e !in s.g.reach && !OwedByOther(s, a.worker, e)
  }

  /** A worker's step leaves what other workers owe. */
  lemma OthersStillOwe(s: State, a: Action, w: nat, e: (Id, Id))
    requires Enabled(s, a) && (a.Begin? || a.Write? || a.Finish? || a.Crash?) && w == a.worker
    ensures OwedByOther(s, w, e) ==> Owed(Next(s, a), e)
  {
    if OwedByOther(s, w, e) {
      var v :| Halfway(s, v) && v != w && Target(s.works[v]) == e;
      assert Next(s, a).works[v] == s.works[v];
    }
  }

  /** Who owes what after the second write of a pair. */
  lemma SecondWriteOwes(s: State, w: nat, ok: bool, f: (Id, Id))
    requires Enabled(s, Write(w, ok)) && s.works[w].half
    ensures Owed(Next(s, Write(w, ok)), f) <==> OwedByOther(s, w, f)
    ensures Owed(s, f) <==> OwedByOther(s, w, f) || f == Target(s.works[w])
  {
    var s' := Next(s, Write(w, ok));
    OthersStillOwe(s, Write(w, ok), w, f);
    assert !Halfway(s', w);
    if v :| Halfway(s', v) && Target(s'.works[v]) == f {
      assert v != w && s'.works[v] == s.works[v];
    }
    assert Halfway(s, w);
  }

  lemma SecondWriteBalance(s: State, w: nat, ok: bool)
    requires Inv(s) && Enabled(s, Write(w, ok)) && Balanced(s) && s.works[w].half
    ensures var a := Write(w, ok); !Balanced(Next(s, a)) <==> LoneWrite(s, a) || LostWrite(s, a)
  {
    var a := Write(w, ok);
    var s', e := Next(s, a), Target(s.works[w]);
    assert WorkInv(s, s.works[w]) && s.works[w].peers[0] in s.works[w].peers;
    assert Back(Back(e)) == e && Back(e) != e;
    forall f ensures Owed(s', f) <==> OwedByOther(s, w, f)
             ensures Owed(s, f) <==> OwedByOther(s, w, f) || f == e {
      SecondWriteOwes(s, w, ok, f);
    }
    if LoneWrite(s, a) {
      assert e in s'.g.reach && Back(e) !in s'.g.reach;
    } else if LostWrite(s, a) {
      assert Back(e) in s'.g.reach && e !in s'.g.reach;
    } else {
      forall f | f in s'.g.reach ensures Back(f) in s'.g.reach || Owed(s', Back(f)) {
        assert Back(Back(f)) == f && (f == e || f in s.g.reach);
      }
    }
  }

  /** Between its two writes a worker owes the second, whatever became of the first. */
  lemma FirstWriteOwes(s: State, w: nat, ok: bool, f: (Id, Id))
    requires Enabled(s, Write(w, ok)) && !s.works[w].half
    ensures Owed(s, f) ==> Owed(Next(s, Write(w, ok)), f)
    ensures f == Back(Target(s.works[w])) ==> Owed(Next(s, Write(w, ok)), f)
  {
    var s' := Next(s, Write(w, ok));
    assert Halfway(s', w) && Target(s'.works[w]) == Back(Target(s.works[w]));
    if v :| Halfway(s, v) && Target(s.works[v]) == f {
      assert Halfway(s', v) && s'.works[v] == s.works[v];
    }
  }

  lemma FirstWriteBalance(s: State, w: nat, ok: bool)
    requires Inv(s) && Enabled(s, Write(w, ok)) && Balanced(s) && !s.works[w].half
    ensures Balanced(Next(s, Write(w, ok)))
  {
    var s', e := Next(s, Write(w, ok)), Target(s.works[w]);
    forall f | f in s'.g.reach ensures Back(f) in s'.g.reach || Owed(s', Back(f)) {
      FirstWriteOwes(s, w, ok, Back(f));
      assert f in s.g.reach || f == e;
      assert Back(f) in s.g.reach ==> Back(f) in s'.g.reach;
    }
  }

  lemma WriteBalance(s: State, w: nat, ok: bool)
    requires Inv(s) && Enabled(s, Write(w, ok)) && Balanced(s)
    ensures var a := Write(w, ok); !Balanced(Next(s, a)) <==> LoneWrite(s, a) || LostWrite(s, a)
  {
    if s.works[w].half {
      SecondWriteBalance(s, w, ok);
    } else {
      FirstWriteBalance(s, w, ok);
    }
  }

  lemma QuietKeepsHalfway(s: State, a: Action, v: nat)
    requires Enabled(s, a) && !a.Write? && !a.Crash? && Halfway(s, v)
    ensures Halfway(Next(s, a), v) && Next(s, a).works[v] == s.works[v]
  {
  }

  /** Registering, projecting, beginning and finishing owe and write nothing. */
  lemma QuietBalance(s: State, a: Action)
    requires Inv(s) && Enabled(s, a) && Balanced(s) && !a.Write? && !a.Crash?
    ensures Balanced(Next(s, a))
  {
    var s' := Next(s, a);
    assert s'.g.reach == s.g.reach;
    forall e | e in s.g.reach && Back(e) !in s.g.reach ensures Owed(s', Back(e)) {
      var v :| Halfway(s, v) && Target(s.works[v]) == Back(e);
      QuietKeepsHalfway(s, a, v);
    }
  }

  lemma CrashBalance(s: State, w: nat)
    requires Inv(s) && Enabled(s, Crash(w)) && Balanced(s)
    ensures !Balanced(Next(s, Crash(w))) <==> LostWrite(s, Crash(w))
  {
    var a := Crash(w);
    var s' := Next(s, a);
    forall f ensures OwedByOther(s, w, f) <==> Owed(s', f)
             ensures Owed(s, f) <==> OwedByOther(s, w, f) || (Halfway(s, w) && f == Target(s.works[w])) {
      OthersStillOwe(s, a, w, f);
    }
    if LostWrite(s, a) {
      var e := Target(s.works[w]);
      assert Back(Back(e)) == e && Back(e) in s'.g.reach;
    } else {
      forall f | f in s'.g.reach ensures Back(f) in s'.g.reach || Owed(s', Back(f)) {
        assert Back(Back(f)) == f;
      }
    }
  }

  lemma StepBalance(s: State, a: Action)
    requires Inv(s) && Enabled(s, a) && Balanced(s)
    ensures !Balanced(Next(s, a)) <==> LoneWrite(s, a) || LostWrite(s, a)
  {
    match a
    case Write(w, ok) => WriteBalance(s, w, ok);
    case Crash(w) => CrashBalance(s, w);
    case _ => QuietBalance(s, a);
  }

  /** The links of a pair are meant to go both ways. In every reachable state one step
      leaves a one-way link that nobody is about to complete exactly when the first write
      of a pair had no effect and the second has, or the first had and the second is lost. */
  lemma OneWayLinkIff(states: seq<State>, actions: seq<Action>, i: nat)
    requires IsRun(states, actions) && i < |actions| && Balanced(states[i])
    ensures !Balanced(states[i + 1]) <==> LoneWrite(states[i], actions[i]) || LostWrite(states[i], actions[i])
  {
    RunKeepsInv(states, actions, i);
    StepBalance(states[i], actions[i]);
  }

  // ---------- what keeps it symmetric ----------

  /** No write fails, no worker crashes halfway through a pair, and no asset is projected
      for the first time while a worker is halfway through one of its pairs. */
  ghost predicate Undisturbed(s: State, a: Action) {
    && (a.Write? ==> a.ok)
    && (a.Crash? ==> !Halfway(s, a.worker))
    && (a.Project? && a.id !in s.g.assets ==>
          forall w :: Halfway(s, w) ==> a.id != Target(s.works[w]).0 && a.id != Target(s.works[w]).1)
  }

  /** Halfway through a pair that can be linked, the first direction is there. */
  ghost predicate FirstWritten(s: State) {
    forall w :: Halfway(s, w) && Projected(s, Target(s.works[w])) ==> Back(Target(s.works[w])) in s.g.reach
  }

  lemma UndisturbedKeepsFirst(s: State, a: Action)
    requires Inv(s) && Enabled(s, a) && Undisturbed(s, a) && FirstWritten(s)
    ensures FirstWritten(Next(s, a))
  {
    var s' := Next(s, a);
    forall w | Halfway(s', w) && Projected(s', Target(s'.works[w])) ensures Back(Target(s'.works[w])) in s'.g.reach {
      if a.Write? && a.worker == w {
        assert Back(Target(s'.works[w])) == Target(s.works[w]);
      } else if !(a.Begin? && a.worker == w) {
        assert s'.works[w] == s.works[w] && Halfway(s, w);
      }
    }
  }

  lemma UndisturbedLosesNothing(s: State, a: Action)
    requires Undisturbed(s, a) && FirstWritten(s)
    ensures !LoneWrite(s, a) && !LostWrite(s, a)
  {
  }

  lemma BalancedIsSymmetric(s: State)
    requires Balanced(s)
    ensures (forall w :: !Halfway(s, w)) ==> forall x, y :: (x, y) in s.g.reach ==> (y, x) in s.g.reach
  {
    if forall w :: !Halfway(s, w) {
      forall x, y | (x, y) in s.g.reach ensures (y, x) in s.g.reach {
        assert Back((x, y)) == (y, x);
      }
    }
  }

  lemma UndisturbedStep(s: State, a: Action)
    requires Inv(s) && Enabled(s, a) && Undisturbed(s, a) && Balanced(s) && FirstWritten(s)
    ensures Balanced(Next(s, a)) && FirstWritten(Next(s, a))
  {
    StepBalance(s, a);
    UndisturbedLosesNothing(s, a);
    UndisturbedKeepsFirst(s, a);
  }

  lemma {:induction false} UndisturbedIsBalanced(states: seq<State>, actions: seq<Action>, i: nat)
    requires IsRun(states, actions) && i < |states|
    requires forall k :: 0 <= k < |actions| ==> Undisturbed(states[k], actions[k])
    ensures Balanced(states[i]) && FirstWritten(states[i])
  {
    if i == 0 {
    } else {
      UndisturbedIsBalanced(states, actions, i - 1);
      RunKeepsInv(states, actions, i - 1);
      UndisturbedStep(states[i - 1], actions[i - 1]);
    }
  }

  /** In a run without such disturbances every link is two-way, or its worker is just
      about to write the way back; so with no worker halfway the relation is symmetric. */
  lemma UndisturbedIsSymmetric(states: seq<State>, actions: seq<Action>, i: nat)
    requires IsRun(states, actions) && i < |states|
    requires forall k :: 0 <= k < |actions| ==> Undisturbed(states[k], actions[k])
    ensures Balanced(states[i])
    ensures (forall w :: !Halfway(states[i], w)) ==>
              forall x, y :: (x, y) in states[i].g.reach ==> (y, x) in states[i].g.reach
  {
    UndisturbedIsBalanced(states, actions, i);
    BalancedIsSymmetric(states[i]);
  }

  // ---------- a one-way link for good ----------

  /** Two addresses of one private subnet. */
  const HOST_X := Asset(IP, "10.0.0.1", V4(10, 0, 0, 1), "x", "high", [])
  const HOST_Y := Asset(IP, "10.0.0.2", V4(10, 0, 0, 2), "y", "high", [])
  const BOTH: Registry := map["x" := HOST_X, "y" := HOST_Y]

  function NodeOf(asset: Asset): AssetNode {
    AssetNode(asset.name, asset.target, asset.criticality, Exposure(asset.tags))
  }

  /** Nodes and relationships only. */
  function Net(assets: map<Id, AssetNode>, reach: map<(Id, Id), Link>): Graph {
    EMPTY_GRAPH.(assets := assets, reach := reach)
  }

  /** Host y is projected between the two writes that a scan of host x makes for it, and
      is scanned no further. */
  function SplitActions(): seq<Action> {
    [Register("x", HOST_X), Register("y", HOST_Y), Project("x"), Begin(1, "x", ["x", "y"]),
     Write(1, true), Project("y"), Write(1, true), Finish(1)]
  }

  function SplitStates(): seq<State> {
    var x, y := NodeOf(HOST_X), NodeOf(HOST_Y);
    var alone, both := Net(map["x" := x], map[]), Net(map["x" := x, "y" := y], map[]);
    var linked := Net(map["x" := x, "y" := y], map[("y", "x") := Link(0, "ip")]);
    [INITIAL,
     State(map["x" := HOST_X], EMPTY_GRAPH, map[], {}),
     State(BOTH, EMPTY_GRAPH, map[], {}),
     State(BOTH, alone, map[], {}),
     State(BOTH, alone, map[1 := Work("x", ["y"], false, {"x"}, true)], {}),
     State(BOTH, alone, map[1 := Work("x", ["y"], true, {"x"}, true)], {}),
     State(BOTH, both, map[1 := Work("x", ["y"], true, {"x"}, true)], {}),
     State(BOTH, linked, map[1 := Work("x", [], false, {"x"}, true)], {}),
     State(BOTH, linked, map[], {Scan("x", {"x"})})]
  }

  lemma SplitPeers()
    ensures ListedPeers(BOTH, ["x", "y"], "x") == ["y"]
  {
    SameSubnet(HOST_X.address, HOST_Y.address);
    var all: seq<Id> := ["x", "y"];
    assert all[..1] == ["x"] && ["x"][..0] == [];
    assert Peers(BOTH, "x", "y") && !Peers(BOTH, "x", "x");
    assert ListedPeers(BOTH, ["x"], "x") == [];
  }

  lemma SplitBegins()
    ensures Enabled(SplitStates()[3], SplitActions()[3])
    ensures Next(SplitStates()[3], SplitActions()[3]) == SplitStates()[4]
  {
    SplitPeers();
    var s := SplitStates()[3];
    assert (set y | y in s.g.assets) == {"x"};
  }

  lemma SplitWrites()
    ensures Enabled(SplitStates()[4], SplitActions()[4])
    ensures Next(SplitStates()[4], SplitActions()[4]) == SplitStates()[5]
    ensures Enabled(SplitStates()[6], SplitActions()[6])
    ensures Next(SplitStates()[6], SplitActions()[6]) == SplitStates()[7]
    ensures Enabled(SplitStates()[7], SplitActions()[7])
    ensures Next(SplitStates()[7], SplitActions()[7]) == SplitStates()[8]
  {
    assert "y" !in SplitStates()[4].g.assets;
    var s := SplitStates()[6];
    assert ["y"][1..] == [];
    assert Advanced(s.works[1], true) == SplitStates()[7].works[1];
    assert Next(s, SplitActions()[6]).g == SplitStates()[7].g;
    assert Next(s, SplitActions()[6]).works == SplitStates()[7].works;
  }

  lemma SplitProjects()
    ensures Enabled(SplitStates()[0], SplitActions()[0])
    ensures Next(SplitStates()[0], SplitActions()[0]) == SplitStates()[1]
    ensures Enabled(SplitStates()[1], SplitActions()[1])
    ensures Next(SplitStates()[1], SplitActions()[1]) == SplitStates()[2]
    ensures Enabled(SplitStates()[2], SplitActions()[2])
    ensures Next(SplitStates()[2], SplitActions()[2]) == SplitStates()[3]
    ensures Enabled(SplitStates()[5], SplitActions()[5])
    ensures Next(SplitStates()[5], SplitActions()[5]) == SplitStates()[6]
  {
  }

  lemma SplitIsLone()
    ensures LoneWrite(SplitStates()[6], SplitActions()[6])
  {
    var s := SplitStates()[6];
    assert Halfway(s, 1) && Target(s.works[1]) == ("y", "x");
  }

  lemma SplitIsRun()
    ensures IsRun(SplitStates(), SplitActions())
  {
    SplitProjects();
    SplitBegins();
    SplitWrites();
    var states, actions := SplitStates(), SplitActions();
    forall i | 0 <= i < |actions|
      ensures Enabled(states[i], actions[i]) && states[i + 1] == Next(states[i], actions[i])
    {
      assert i == 0 || i == 1 || i == 2 || i == 3 || i == 4 || i == 5 || i == 6 || i == 7;
    }
  }

  /** A run without failures or crashes that ends with nothing under way and a link from y
      to x but none back. */
  lemma OneWayLinkRun()
    ensures IsRun(SplitStates(), SplitActions())
    ensures var s := SplitStates()[8]; s.works == map[] && ("y", "x") in s.g.reach && ("x", "y") !in s.g.reach
    ensures LoneWrite(SplitStates()[6], SplitActions()[6])
  {
    SplitIsRun();
    SplitIsLone();
  }
}
