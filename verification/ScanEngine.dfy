/** One scan from job to stored findings: the scanner loop, the counts, the verdict, and
    the graph operations it triggers. */
module ScanEngine {
  import opened Prelude
  import opened Assets
  import opened Scanners
  import G = PrivilegeGraph
  import L = ScanLifecycle

  type Id = string

  datatype Finding = Finding(cwe: string, title: string, risk: real, principal: string, credFp: string)

  /** A parsed finding and whether the database accepted it. */
  datatype Parsed = Parsed(finding: Finding, stored: bool)

  /** What one scanner contributes. Unparsable output counts as no error of the scanner. */
  datatype Result = Failed(message: string) | Scanned(mock: bool, parsed: Option<seq<Parsed>>)

  datatype Job = Job(assetId: Id, profile: Profile, status: L.Status, usedMock: bool, error: string)

  // ---------- specification ----------

  function StoredOf(parsed: seq<Parsed>): seq<Finding> {
    if parsed == [] then [] else
    var n := |parsed| - 1;
    StoredOf(parsed[..n]) + if parsed[n].stored then [parsed[n].finding] else []
  }

  function StoredBy(r: Result): seq<Finding> {
    if r.Scanned? && r.parsed.Some? then StoredOf(r.parsed.value) else []
  }

  /** Everything one run of these scanners stores, in order. */
  function Stored(results: seq<Result>): seq<Finding> {
    if results == [] then [] else Stored(results[..|results| - 1]) + StoredBy(results[|results| - 1])
  }

  predicate Errored(results: seq<Result>) {
    exists i :: 0 <= i < |results| && results[i].Failed?
  }

  predicate Mocked(results: seq<Result>) {
    exists i :: 0 <= i < |results| && results[i].Scanned? && results[i].mock
  }

  /** The errors of the scanners that failed, in order. */
  function Messages(results: seq<Result>): seq<string> {
    if results == [] then [] else
    var n := |results| - 1;
    Messages(results[..n]) + if results[n].Failed? then [results[n].message] else []
  }

  /** Failed when some scanner errored and nothing at all was stored. */
  ghost function Verdict(results: seq<Result>): L.Status {
    if Errored(results) && Stored(results) == [] then L.Failed else L.Completed
  }

  function JoinErrors(errors: seq<string>): string {
    if errors == [] then "" else if |errors| == 1 then errors[0] else errors[0] + "; " + JoinErrors(errors[1..])
  }

  function IsPrivEsc(cwe: string): bool {
    cwe in {"CWE-269", "CWE-250", "CWE-264", "CWE-276", "CWE-732", "CWE-862", "CWE-863"}
  }

  function IsCredentialLeak(cwe: string): bool {
    cwe in {"CWE-798", "CWE-522", "CWE-259"}
  }

  /** Graph operations for one stored finding. */
  function OpsOf(assetId: Id, f: Finding): seq<G.Op> {
    (if IsPrivEsc(f.cwe) then [G.OpDerive(assetId, f.cwe, f.title, f.risk)] else [])
    + if IsCredentialLeak(f.cwe) && f.credFp != ""
      then [G.OpRecord(assetId, f.principal, f.credFp, f.title), G.OpJoin(f.credFp, f.risk)] else []
  }

  function OpsOfAll(assetId: Id, fs: seq<Finding>): seq<G.Op> {
    if fs == [] then [] else OpsOfAll(assetId, fs[..|fs| - 1]) + OpsOf(assetId, fs[|fs| - 1])
  }

  /** The graph operations of a whole scan: its asset first. */
  function ScanOps(assetId: Id, node: AssetNode, fs: seq<Finding>): seq<G.Op> {
    [G.OpAsset(assetId, node)] + OpsOfAll(assetId, fs)
  }

  lemma PrivEscCwes(cwe: string)
    ensures IsPrivEsc(cwe) <==>
              || cwe == "CWE-269" || cwe == "CWE-250" || cwe == "CWE-264" || cwe == "CWE-276"
              || cwe == "CWE-732" || cwe == "CWE-862" || cwe == "CWE-863"
    ensures IsCredentialLeak(cwe) <==> cwe == "CWE-798" || cwe == "CWE-522" || cwe == "CWE-259"
  {
  }

  /** The accepted findings of a list are those of its parts, in order. */
  lemma {:induction false} StoredOfConcat(xs: seq<Parsed>, ys: seq<Parsed>)
    ensures StoredOf(xs + ys) == StoredOf(xs) + StoredOf(ys)
    ensures |xs| == 1 ==> StoredOf(xs) == if xs[0].stored then [xs[0].finding] else []
  {
    if ys == [] {
      assert xs + ys == xs;
    } else {
      assert (xs + ys)[..|xs + ys| - 1] == xs + ys[..|ys| - 1];
      StoredOfConcat(xs, ys[..|ys| - 1]);
    }
  }

  /** What a run stores is what its scanners' outputs hold, in order: everything accepted of
      output that parsed, nothing of a failure. */
  lemma {:induction false} StoredConcat(xs: seq<Result>, ys: seq<Result>)
    ensures Stored(xs + ys) == Stored(xs) + Stored(ys)
    ensures |xs| == 1 && xs[0].Scanned? && xs[0].parsed.Some? ==> Stored(xs) == StoredOf(xs[0].parsed.value)
    ensures |xs| == 1 && (xs[0].Failed? || xs[0].parsed.None?) ==> Stored(xs) == []
  {
    if ys == [] {
      assert xs + ys == xs;
    } else {
      assert (xs + ys)[..|xs + ys| - 1] == xs + ys[..|ys| - 1];
      StoredConcat(xs, ys[..|ys| - 1]);
      Regroup(Stored(xs), Stored(ys[..|ys| - 1]), StoredBy(ys[|ys| - 1]));
    }
  }

  lemma {:induction false} MessagesConcat(xs: seq<Result>, ys: seq<Result>)
    ensures Messages(xs + ys) == Messages(xs) + Messages(ys)
    ensures |xs| == 1 ==> Messages(xs) == if xs[0].Failed? then [xs[0].message] else []
  {
    if ys == [] {
      assert xs + ys == xs;
    } else {
      assert (xs + ys)[..|xs + ys| - 1] == xs + ys[..|ys| - 1];
      MessagesConcat(xs, ys[..|ys| - 1]);
    }
  }

  /** The errors are joined by semicolons. */
  lemma {:induction false} JoinErrorsConcat(xs: seq<string>, ys: seq<string>)
    requires xs != [] && ys != []
    ensures JoinErrors(xs + ys) == JoinErrors(xs) + "; " + JoinErrors(ys)
    ensures |xs| == 1 ==> JoinErrors(xs) == xs[0]
  {
    if |xs| == 1 {
      assert (xs + ys)[1..] == ys;
    } else {
      assert (xs + ys)[1..] == xs[1..] + ys;
      JoinErrorsConcat(xs[1..], ys);
    }
  }

  /** Findings as vulnerabilities of their asset. */
  function Attached(assetId: Id, fs: seq<Finding>): seq<(Id, Finding)> {
    seq(|fs|, i requires 0 <= i < |fs| => (assetId, fs[i]))
  }

  lemma AttachedConcat(assetId: Id, xs: seq<Finding>, ys: seq<Finding>)
    ensures Attached(assetId, xs + ys) == Attached(assetId, xs) + Attached(assetId, ys)
  {
  }

  /** What one more parsed finding adds. */
  lemma NextStoredOf(assetId: Id, parsed: seq<Parsed>, i: nat)
    requires i < |parsed|
    ensures var before, f := StoredOf(parsed[..i]), parsed[i].finding;
            if parsed[i].stored
            then && StoredOf(parsed[..i + 1]) == before + [f]
                 && OpsOfAll(assetId, before + [f]) == OpsOfAll(assetId, before) + OpsOf(assetId, f)
                 && Attached(assetId, before + [f]) == Attached(assetId, before) + [(assetId, f)]
            else StoredOf(parsed[..i + 1]) == before
  {
    var before, f := StoredOf(parsed[..i]), parsed[i].finding;
    assert parsed[..i + 1][..i] == parsed[..i];
    assert (before + [f])[..|before|] == before;
  }

  /** The graph operations a stored finding asks for. */
  lemma OpsOfIs(assetId: Id, f: Finding)
    ensures forall op :: op in OpsOf(assetId, f) <==>
              || (IsPrivEsc(f.cwe) && op == G.OpDerive(assetId, f.cwe, f.title, f.risk))
              || (IsCredentialLeak(f.cwe) && f.credFp != ""
                  && (op == G.OpRecord(assetId, f.principal, f.credFp, f.title) || op == G.OpJoin(f.credFp, f.risk)))
  {
  }

  lemma NextStored(results: seq<Result>, i: nat)
    requires i < |results|
    ensures Stored(results[..i + 1]) == Stored(results[..i]) + StoredBy(results[i])
  {
    assert results[..i + 1][..i] == results[..i];
  }

  lemma NextFlags(results: seq<Result>, i: nat)
    requires i < |results|
    ensures Messages(results[..i + 1]) ==
              Messages(results[..i]) + if results[i].Failed? then [results[i].message] else []
    ensures Mocked(results[..i + 1]) <==> Mocked(results[..i]) || (results[i].Scanned? && results[i].mock)
  {
    var l, r := results[..i], results[..i + 1];
    assert r[..i] == l;
    assert forall j :: 0 <= j < i ==> r[j] == l[j];
    assert r[i] == results[i];
  }

  lemma {:induction false} MessagesIff(results: seq<Result>)
    ensures Messages(results) != [] <==> Errored(results)
  {
    if results == [] {
    } else {
      var n := |results| - 1;
      MessagesIff(results[..n]);
      assert forall i :: 0 <= i < n ==> results[..n][i] == results[i];
    }
  }

  // ---------- results a profile can produce ----------

  /** The result a scanner outcome leads to. */
  predicate Yields(outcome: Outcome, result: Result) {
    match outcome
    case Error => result.Failed?
    case Real => result.Scanned? && !result.mock
    case Mock => result.Scanned? && result.mock
  }

  ghost predicate Possible(kind: Kind, o: Options, result: Result) {
    exists c: Circumstances :: Yields(Scan(kind, o, c), result)
  }

  /** One result for each scanner of the profile, as that scanner may give it. */
  ghost predicate Produced(p: Profile, o: Options, results: seq<Result>) {
    && |results| == |ForProfile(p)|
    && forall i :: 0 <= i < |results| ==> Possible(ForProfile(p)[i], o, results[i])
  }

  /** A job after its scan. */
  ghost function Judged(job: Job, results: seq<Result>): Job {
    if Verdict(results).Failed?
    then job.(status := L.Failed, error := "all scanners failed: " + JoinErrors(Messages(results)))
    else job.(status := L.Completed, usedMock := Mocked(results))
  }

  lemma {:induction false} OpsOfConcat(assetId: Id, xs: seq<Finding>, ys: seq<Finding>)
    ensures OpsOfAll(assetId, xs + ys) == OpsOfAll(assetId, xs) + OpsOfAll(assetId, ys)
  {
    if ys == [] {
      assert xs + ys == xs;
    } else {
      var n := |ys| - 1;
      assert (xs + ys)[..|xs + ys| - 1] == xs + ys[..n];
      OpsOfConcat(assetId, xs, ys[..n]);
      Regroup(OpsOfAll(assetId, xs), OpsOfAll(assetId, ys[..n]), OpsOf(assetId, ys[n]));
    }
  }

  // ---------- what a verdict means ----------

  lemma {:induction false} StoredNeedsSuccess(results: seq<Result>)
    requires Stored(results) != []
    ensures exists i :: 0 <= i < |results| && results[i].Scanned?
  {
    var n := |results| - 1;
    if !results[n].Scanned? {
      StoredNeedsSuccess(results[..n]);
      var i :| 0 <= i < n && results[..n][i].Scanned?;
      assert results[i].Scanned?;
    }
  }

  /** A completed job had at least one scanner of its profile return without error. */
  lemma NoEmptySuccess(p: Profile, o: Options, results: seq<Result>)
    requires Produced(p, o, results) && Verdict(results).Completed?
    ensures exists i :: 0 <= i < |results| && results[i].Scanned?
  {
    if Stored(results) != [] {
      StoredNeedsSuccess(results);
    } else {
      assert !results[0].Failed?;
    }
  }

  /** In production no result of any profile is mock data; in development none is an
      error. */
  lemma ProductionNeverMocks(p: Profile, o: Options, results: seq<Result>)
    requires Produced(p, o, results)
    ensures o.production ==> !Mocked(results)
    ensures !o.production ==> !Errored(results)
  {
    forall i | 0 <= i < |results|
      ensures o.production && results[i].Scanned? ==> !results[i].mock
      ensures !o.production ==> !results[i].Failed?
    {
      assert Possible(ForProfile(p)[i], o, results[i]);
      var c: Circumstances :| Yields(Scan(ForProfile(p)[i], o, c), results[i]);
      ScanGuarantees(ForProfile(p)[i], o, c);
    }
  }

  lemma NoneStoredSnoc(results: seq<Result>)
    requires results != []
    ensures var n := |results| - 1;
            (forall i :: 0 <= i < |results| ==> StoredBy(results[i]) == []) <==>
              (forall i :: 0 <= i < n ==> StoredBy(results[..n][i]) == []) && StoredBy(results[n]) == []
  {
    var n := |results| - 1;
    assert forall i :: 0 <= i < n ==> results[..n][i] == results[i];
  }

  /** Nothing is stored in all exactly when no scanner's result is. */
  lemma {:induction false} StoredEmptyIff(results: seq<Result>)
    ensures Stored(results) == [] <==> forall i :: 0 <= i < |results| ==> StoredBy(results[i]) == []
  {
    if results == [] {
    } else {
      var n := |results| - 1;
      StoredEmptyIff(results[..n]);
      NoneStoredSnoc(results);
      assert |Stored(results)| == |Stored(results[..n])| + |StoredBy(results[n])|;
    }
  }

  /** The failure message says that every scanner failed. It is untrue exactly for the
      critical profile in production, when a scanner errored, another did not, and those
      that did not stored nothing. */
  lemma FailsWithoutAllFailingIff(p: Profile, o: Options, results: seq<Result>)
    requires Produced(p, o, results)
    ensures (Verdict(results).Failed? && exists i :: 0 <= i < |results| && results[i].Scanned?)
            <==> (p.CriticalProfile? && o.production && Errored(results)
                  && (exists i :: 0 <= i < |results| && results[i].Scanned?)
                  && forall i :: 0 <= i < |results| && results[i].Scanned? ==> StoredBy(results[i]) == [])
  {
    StoredEmptyIff(results);
    ProductionNeverMocks(p, o, results);
    if !p.CriticalProfile? && Errored(results) {
      assert |results| == 1;
    }
  }

  /** A critical scan in production: nmap errors, the other three run cleanly and find
      nothing, and the job is failed because all scanners failed. */
  lemma CleanScansReportedAsFailure() returns (results: seq<Result>)
    ensures Produced(CriticalProfile, Options(true, true, true), results)
    ensures Verdict(results).Failed?
    ensures results[0].Failed? && results[1].Scanned? && results[2].Scanned? && results[3].Scanned?
  {
    var o := Options(true, true, true);
    var clean := Scanned(false, Some([]));
    results := [Failed("nmap: binary not found"), clean, clean, clean];
    assert Yields(Scan(Nmap, o, Circumstances(false, false, false, false, RunFailed)), results[0]);
    assert Yields(Scan(Nuclei, o, Circumstances(true, false, false, false, RunEmpty)), results[1]);
    assert Yields(Scan(Crypto, o, Circumstances(true, false, false, false, RunOutput)), results[2]);
    assert Yields(Scan(Secrets, o, Circumstances(true, false, false, false, RunOutput)), results[3]);
    assert results[0].Failed?;
    StoredEmptyIff(results);
  }

  /** A job after its scan: failed exactly if some scanner erred and nothing was stored;
      otherwise completed, and marked exactly if some output was made up. */
  lemma JudgedIs(job: Job, results: seq<Result>)
    ensures var after := Judged(job, results);
            var failed := (exists r :: r in results && r.Failed?) && Stored(results) == [];
            && after.assetId == job.assetId && after.profile == job.profile
            && after.status == (if failed then L.Failed else L.Completed)
            && (failed ==> after.error == "all scanners failed: " + JoinErrors(Messages(results)))
            && (!failed ==> (after.usedMock <==> exists r :: r in results && r.Scanned? && r.mock))
  {
    if Errored(results) {
      var i :| 0 <= i < |results| && results[i].Failed?;
      assert results[i] in results;
    }
    if Mocked(results) {
      var i :| 0 <= i < |results| && results[i].Scanned? && results[i].mock;
      assert results[i] in results;
    }
  }

  lemma JudgedRunning(job: Job, results: seq<Result>)
    ensures Judged(job.(status := L.Running), results) == Judged(job, results)
  {
  }

  // ---------- the store and the processor ----------

  class Store {
    const options: Options
    var assets: map<Id, AssetNode>
    var jobs: map<Id, Job>
    var findings: seq<Finding>
    var graphOps: seq<G.Op>
    var vulns: seq<(Id, Finding)>
    ghost var runs: map<Id, seq<Result>>

    /** Every completed job is the verdict of a run of its profile's scanners. */
    ghost predicate Valid()
      reads this
    {
      forall id :: id in jobs && jobs[id].status.Completed? ==>
        && id in runs && Produced(jobs[id].profile, options, runs[id])
        && Verdict(runs[id]).Completed? && jobs[id].usedMock == Mocked(runs[id])
    }

    constructor (options: Options)
      ensures Valid() && this.options == options
      ensures assets == map[] && jobs == map[] && findings == [] && graphOps == [] && vulns == []
    {
      this.options := options;
      assets, jobs, findings, graphOps, vulns, runs := map[], map[], [], [], [], map[];
    }

    method CreateAsset(id: Id, node: AssetNode)
      requires Valid()
      modifies this`assets
      ensures Valid() && assets == old(assets)[id := node]
    {
      assets := assets[id := node];
    }

    /** A new job under a fresh id. */
    method CreateScanJob(id: Id, assetId: Id, profile: Profile)
      requires Valid() && id !in jobs
      modifies this`jobs
      ensures Valid() && jobs == old(jobs)[id := Job(assetId, profile, L.Queued, false, "")]
    {
      jobs := jobs[id := Job(assetId, profile, L.Queued, false, "")];
    }

    /** The status updates are unguarded, and an update of no row is no error. Each fails
        without effect, takes effect, or takes effect without its reply. */
    method MarkFailed(id: Id, message: string, update: L.Update) returns (ok: bool)
      requires Valid()
      modifies this`jobs
      ensures Valid() && ok == update.Done?
      ensures jobs == if id in old(jobs) && !update.NoEffect?
                      then old(jobs)[id := old(jobs[id]).(status := L.Failed, error := message)] else old(jobs)
    {
      if id in jobs && !update.NoEffect? {
        jobs := jobs[id := jobs[id].(status := L.Failed, error := message)];
      }
      return update.Done?;
    }

    method MarkRunning(id: Id, update: L.Update) returns (ok: bool)
      requires Valid()
      modifies this`jobs
      ensures Valid() && ok == update.Done?
      ensures jobs == if id in old(jobs) && !update.NoEffect?
                      then old(jobs)[id := old(jobs[id]).(status := L.Running)] else old(jobs)
    {
      if id in jobs && !update.NoEffect? {
        jobs := jobs[id := jobs[id].(status := L.Running)];
      }
      return update.Done?;
    }

    /** Keeps the invariant when it is called with the verdict of a run. */
    method MarkCompleted(id: Id, usedMock: bool, ghost results: seq<Result>, update: L.Update) returns (ok: bool)
      requires Valid()
      modifies this`jobs, this`runs
      ensures ok == update.Done?
      ensures jobs == if id in old(jobs) && !update.NoEffect?
                      then old(jobs)[id := old(jobs[id]).(status := L.Completed, usedMock := usedMock)] else old(jobs)
      ensures runs == if id in old(jobs) && !update.NoEffect? then old(runs)[id := results] else old(runs)
      ensures (id in old(jobs) ==> && Produced(old(jobs[id]).profile, options, results)
                                   && Verdict(results).Completed? && usedMock == Mocked(results)) ==> Valid()
    {
      if id in jobs && !update.NoEffect? {
        jobs := jobs[id := jobs[id].(status := L.Completed, usedMock := usedMock)];
        runs := runs[id := results];
      }
      return update.Done?;
    }

    /** In every reachable store a completed job had a scanner of its profile return without
        error, and in production it used no mock data. */
    lemma CompletedWasScanned(id: Id)
      requires Valid() && id in jobs && jobs[id].status.Completed?
      ensures id in runs && |runs[id]| == |ForProfile(jobs[id].profile)|
      ensures exists i :: 0 <= i < |runs[id]| && runs[id][i].Scanned?
      ensures options.production ==> !jobs[id].usedMock
    {
      NoEmptySuccess(jobs[id].profile, options, runs[id]);
      if options.production {
        ProductionNeverMocks(jobs[id].profile, options, runs[id]);
      }
    }

    /** One scanner's findings: store each, and wire the stored ones into the graph. */
    method Persist(assetId: Id, parsed: seq<Parsed>) returns (total: nat)
      modifies this`findings, this`graphOps, this`vulns
      ensures findings == old(findings) + StoredOf(parsed)
      ensures vulns == old(vulns) + Attached(assetId, StoredOf(parsed))
      ensures graphOps == old(graphOps) + OpsOfAll(assetId, StoredOf(parsed))
      ensures total == |StoredOf(parsed)|
    {
      total := 0;
      ghost var stored: seq<Finding> := [];
      for i := 0 to |parsed|
        invariant stored == StoredOf(parsed[..i]) && total == |stored|
        invariant findings == old(findings) + stored
        invariant vulns == old(vulns) + Attached(assetId, stored)
        invariant graphOps == old(graphOps) + OpsOfAll(assetId, stored)
      {
        var f := parsed[i].finding;
        NextStoredOf(assetId, parsed, i);
        if parsed[i].stored {
          Regroup(old(findings), stored, [f]);
          Regroup(old(vulns), Attached(assetId, stored), [(assetId, f)]);
          Regroup(old(graphOps), OpsOfAll(assetId, stored), OpsOf(assetId, f));
          findings := findings + [f];
          vulns := vulns + [(assetId, f)];
          graphOps := graphOps + OpsOf(assetId, f);
          total := total + 1;
          stored := stored + [f];
        }
      }
      assert parsed[..|parsed|] == parsed;
    }

    /** One scanner's result: stored, or remembered as an error. */
    method Absorb(assetId: Id, raw: Result) returns (total: nat, errors: seq<string>)
      modifies this`findings, this`graphOps, this`vulns
      ensures findings == old(findings) + StoredBy(raw)
      ensures vulns == old(vulns) + Attached(assetId, StoredBy(raw))
      ensures graphOps == old(graphOps) + OpsOfAll(assetId, StoredBy(raw))
      ensures total == |StoredBy(raw)|
      ensures errors == if raw.Failed? then [raw.message] else []
    {
      total, errors := 0, [];
      match raw
      case Failed(message) =>
        errors := [message];
      case Scanned(_, parsed) =>
        if parsed.Some? {
          total := Persist(assetId, parsed.value);
        }
    }

    /** The scanner loop. */
    method RunScanners(assetId: Id, results: seq<Result>) returns (total: nat, usedMock: bool, errors: seq<string>)
      modifies this`findings, this`graphOps, this`vulns
      ensures findings == old(findings) + Stored(results)
      ensures vulns == old(vulns) + Attached(assetId, Stored(results))
      ensures graphOps == old(graphOps) + OpsOfAll(assetId, Stored(results))
      ensures total == |Stored(results)|
      ensures usedMock <==> Mocked(results)
      ensures errors == Messages(results)
    {
      total, usedMock, errors := 0, false, [];
      ghost var stored: seq<Finding> := [];
      for i := 0 to |results|
        invariant stored == Stored(results[..i]) && total == |stored|
        invariant findings == old(findings) + stored
        invariant vulns == old(vulns) + Attached(assetId, stored)
        invariant graphOps == old(graphOps) + OpsOfAll(assetId, stored)
        invariant usedMock <==> Mocked(results[..i])
        invariant errors == Messages(results[..i])
      {
        ghost var more := StoredBy(results[i]);
        var n, errs := Absorb(assetId, results[i]);
        NextStored(results, i);
        NextFlags(results, i);
        OpsOfConcat(assetId, stored, more);
        AttachedConcat(assetId, stored, more);
        Regroup(old(findings), stored, more);
        Regroup(old(vulns), Attached(assetId, stored), Attached(assetId, more));
        Regroup(old(graphOps), OpsOfAll(assetId, stored), OpsOfAll(assetId, more));
        stored := stored + more;
        total := total + n;
        errors := errors + errs;
        if results[i].Scanned? && results[i].mock {
          usedMock := true;
        }
      }
      assert results[..|results|] == results;
    }

    /** A job whose asset is known and which is marked running: project the asset and run
        the scanners. */
    method Carry(assetId: Id, results: seq<Result>) returns (total: nat, usedMock: bool, errors: seq<string>)
      requires assetId in assets
      modifies this`findings, this`graphOps, this`vulns
      ensures findings == old(findings) + Stored(results)
      ensures vulns == old(vulns) + Attached(assetId, Stored(results))
      ensures graphOps == old(graphOps) + ScanOps(assetId, assets[assetId], Stored(results))
      ensures total == |Stored(results)| && usedMock == Mocked(results) && errors == Messages(results)
    {
      ghost var ops := graphOps;
      graphOps := graphOps + [G.OpAsset(assetId, assets[assetId])];
      total, usedMock, errors := RunScanners(assetId, results);
      Regroup(ops, [G.OpAsset(assetId, assets[assetId])], OpsOfAll(assetId, Stored(results)));
    }

    /** The verdict on a scan, by its counts. */
    method Conclude(id: Id, total: nat, usedMock: bool, errors: seq<string>, ghost results: seq<Result>,
                    update: L.Update)
      returns (ok: bool)
      requires Valid() && id in jobs && Produced(jobs[id].profile, options, results)
      requires total == |Stored(results)| && usedMock == Mocked(results) && errors == Messages(results)
      modifies this`jobs, this`runs
      ensures Valid() && ok == update.Done?
      ensures jobs == if update.NoEffect? then old(jobs) else old(jobs)[id := Judged(old(jobs[id]), results)]
    {
      MessagesIff(results);
      if total == 0 && |errors| > 0 {
        ok := MarkFailed(id, "all scanners failed: " + JoinErrors(errors), update);
      } else {
        ok := MarkCompleted(id, usedMock, results, update);
      }
    }

    predicate Unchanged(findings: seq<Finding>, vulns: seq<(Id, Finding)>, graphOps: seq<G.Op>)
      reads this
    {
      this.findings == findings && this.vulns == vulns && this.graphOps == graphOps
    }

    /** A running job of a known asset, scanned and judged. */
    method RunJob(id: Id, results: seq<Result>, final: L.Update) returns (ok: bool)
      requires Valid() && id in jobs && jobs[id].assetId in assets && Produced(jobs[id].profile, options, results)
      modifies this`jobs, this`runs, this`findings, this`graphOps, this`vulns
      ensures Valid() && ok == final.Done?
      ensures jobs == if final.NoEffect? then old(jobs) else old(jobs)[id := Judged(old(jobs[id]), results)]
      ensures findings == old(findings) + Stored(results)
      ensures vulns == old(vulns) + Attached(old(jobs[id]).assetId, Stored(results))
      ensures var assetId := old(jobs[id]).assetId;
              graphOps == old(graphOps) + ScanOps(assetId, assets[assetId], Stored(results))
    {
      var total, usedMock, errors := Carry(jobs[id].assetId, results);
      ok := Conclude(id, total, usedMock, errors, results, final);
    }

    /** Runs one job to its verdict. Nothing happens for an unknown job or asset; the two
        status updates may each fail, with or without having taken effect. */
    method Process(id: Id, results: seq<Result>, running: L.Update, final: L.Update) returns (err: Option<string>)
      requires Valid() && (id in jobs ==> Produced(jobs[id].profile, options, results))
      modifies this
      ensures Valid() && assets == old(assets)
      ensures !(id in old(jobs) && old(jobs[id]).assetId in assets) ==>
                err.Some? && jobs == old(jobs) && Unchanged(old(findings), old(vulns), old(graphOps))
      ensures id in old(jobs) && old(jobs[id]).assetId in assets && !running.Done? ==>
                && err.Some? && Unchanged(old(findings), old(vulns), old(graphOps))
                && jobs == if running.NoEffect? then old(jobs) else old(jobs)[id := old(jobs[id]).(status := L.Running)]
      ensures id in old(jobs) && old(jobs[id]).assetId in assets && running.Done? ==>
                var job := old(jobs[id]);
                && (err.None? <==> final.Done?)
                && jobs == old(jobs)[id := if final.NoEffect? then job.(status := L.Running) else Judged(job, results)]
                && findings == old(findings) + Stored(results)
                && vulns == old(vulns) + Attached(job.assetId, Stored(results))
                && graphOps == old(graphOps) + ScanOps(job.assetId, assets[job.assetId], Stored(results))
    {
      if id !in jobs {
        return Some("load job: not found");
      }
      var assetId := jobs[id].assetId;
      if assetId !in assets {
        return Some("load asset: not found");
      }
      var ok := MarkRunning(id, running);
      if !ok {
        return Some("mark running");
      }
      JudgedRunning(old(jobs[id]), results);
      ok := RunJob(id, results, final);
      return if ok then None else Some("mark finished");
    }
  }
}
