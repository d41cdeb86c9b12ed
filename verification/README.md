# Amankan verification model

A Dafny model of the parts of Amankan, a vulnerability-management service, that carry
invariants: the attack-graph engine, the per-client rate limiter, the hash-chained audit
log, the life of a scan job, the processing of one scan, the scoring arithmetic and the
API-key table. Each database is a plain state (maps, sets, sequences); each query is a step
on that state. Code that updates its state in place is a class or a method with loops,
proved against a function of the old state; the laws are lemmas about those functions.

Verify with `dafny verify dfyconfig.toml`.

## Modules

| modules | what they model |
|---|---|
| `Rounding`, `RiskScore` | from a CVSS score to the effort written on the graph |
| `PrivilegeGraph`, `DerivedGraph`, `GraphStore` | accounts, credentials and weighted relationships; the writes, in value form and in place |
| `CredentialReuse`, `CheapestEscalation`, `ScanHistory` | what whole histories of scans leave in the graph |
| `EscalationPath`, `PrivEscQuery`, `HostChains`, `EffortOverTime` | the minimum-effort search, its report, its meaning in terms of hosts, its change over time |
| `Assets`, `AssetGraph`, `AttackTrails`, `AttackPaths` | assets, vulnerabilities and reachability; the attack-path query |
| `SubnetReach`, `SubnetSymmetry` | subnet derivation by many workers, write by write; when its links go both ways |
| `TokenBucket`, `RateLimiter`, `Eviction` | one bucket; the limiter with its maps; whole runs with eviction |
| `Text`, `AuditChain`, `AuditLog`, `AuditStore` | canonical records and hashes; concurrent appenders; the table |
| `ScanLifecycle`, `JobQueue`, `Scanners`, `ScanEngine` | jobs, queue and workers; scanner adapters; one scan |
| `KeySyntax`, `ApiKeys` | one entry of the key specification; the key table and the lookup |

## Where the code and its documentation disagree

Each of these is proved, with the exact condition where there is one.

- **Audit log after a normal append.** `AppendAudit` hashes the nanosecond clock reading and
  stores it in a column that keeps microseconds. A row verifies if and only if its reading was
  a whole microsecond (`AuditLog.LogVerifiesIff`; `AuditLog.OneAppendBroken` is a run of one
  append that does not), although `internal/store/audit.go:17-19` and `docs/threat-model.md:23`
  promise a chain that verifies.
- **Deletion.** `internal/audit/audit.go:3-7` says any deletion breaks the chain. Removing one
  entry is noticed if and only if it is not the last (`AuditChain.DeletionDetectedIff`).
- **Modification.** The same lines say any modification breaks the chain. A replaced entry with the
  right link and a recomputed hash goes unnoticed if and only if it is the last or has the old
  hash (`AuditChain.ModificationDetectedIff`).
- **Canonical form.** Fields are joined with `|` and not escaped. The canonical record
  determines the content if and only if no field before the status contains `|` and no part of
  the remote address but the last could be read as a status number
  (`AuditChain.CanonicalDeterminesIff`).
- **Rate limiting below 0.5 requests per second** denies every request, because the burst is
  less than one token (`TokenBucket.DeniesEverythingIff`).
- **Eviction with clock disorder.** `now()` is read before the lock is taken. Eviction stays
  unobservable if and only if no call is more than 299 seconds older than an earlier one
  (`Eviction.EvictionToleratesDisorderIff`).
- **"all scanners failed"** (`internal/engine/processor.go:133-136`). The message is untrue if and
  only if a critical scan in production has a scanner that errored beside others that ran and
  stored nothing (`ScanEngine.FailsWithoutAllFailingIff`).
- **Terminal job states.** Status updates are unguarded. A completed job turns into a failed one
  exactly when the completion took effect but its reply was lost and then the worker's failure
  report takes effect (`ScanLifecycle.StatusMovesForwardIff`).
- **"Bidirectional" subnet links** (`internal/engine/processor.go:151`). The two directions are
  separate writes, and each is a no-op while one end is not projected. If asset y is projected
  between the two writes that a scan of x makes for it, only the link from y to x is created, and
  it stays one-way until one of the two is derived again (`SubnetSymmetry.OneWayLinkRun`). A
  step leaves a link without its opposite if and only if the second write of a pair takes effect
  after the first did not, or is lost after the first did, with nobody else about to make up for
  it (`SubnetSymmetry.OneWayLinkIff`). Once every IP asset has been derived, all links are there
  in both directions (`SubnetReach.ReachabilityConfluence`).
- **Peer count of the subnet derivation** (`internal/engine/processor.go:152`) counts peers that are
  not projected, whose writes have no effect (`SubnetReach.DeriveSubnetReachability`).

## Model

| member | source | states |
|---|---|---|
| `Rounding.Round2Near` | internal/graph/graph.go:672 | rounding moves a non-negative value by at most 0.005, lands on the hundredths grid and fixes values already on it |
| `Rounding.TruncatesTowardsZero` | internal/graph/graph.go:672 | the integer conversion drops the fraction, towards zero on both sides |
| `Rounding.Round2HalfUp` | internal/graph/graph.go:672 | which hundredth a non-negative value rounds to, exactly: halves go up |
| `Rounding.Round1HalfUp` | internal/risk/risk.go:68-70 | which tenth a non-negative value rounds to, exactly |
| `RiskScore.ScoreInRange` | internal/risk/risk.go:29-43 | every score is a whole number of tenths between 0 and 10, for any base score |
| `RiskScore.ScoreMonotone` | internal/risk/risk.go:12-43 | a worse CVSS, a more critical asset (low, then medium or unknown, high, critical) or a known exploit never lowers the score |
| `RiskScore.ScoreIs` | internal/risk/risk.go:12-43 | a score is base score times 0.75, 1, 1.25 or 1.5 by criticality, times 1.3 when known exploited, rounded to tenths; 10 from where that product reaches 10, 0 where it is not positive |
| `RiskScore.WeightsInRange` | internal/graph/graph.go:141-198 | derived weights lie in [0.3, 9] and [1, 9], on the hundredths grid |
| `RiskScore.WeightsAntitone` | internal/graph/graph.go:144-198 | a higher risk never raises a derived weight |
| `RiskScore.WeightsAre` | internal/graph/graph.go:144-198 | the weights are 10 or 11 less the risk, rounded, and where exactly their clamps act |
| `RiskScore.EffortNeverRises` | internal/risk/risk.go:27-43 | the whole pipeline from CVSS to effort is antitone in all three inputs |
| `PrivilegeGraph.AccountIdsDistinct` | internal/graph/graph.go:183-185 | derived account ids determine both role and asset |
| `PrivilegeGraph.AccountIdsAre` | internal/graph/graph.go:183-185 | the two ids of an asset, as text |
| `PrivilegeGraph.AssetWritten` | internal/graph/graph.go:70-78 | projecting an asset sets its own node and changes nothing else |
| `PrivilegeGraph.AccountWritten` | internal/graph/graph.go:117-124 | an account of a projected asset gets these properties and this asset, keeps its mark, and nothing else changes |
| `PrivilegeGraph.AccountAdded` | internal/graph/graph.go:117-124 | the account is written as sent |
| `PrivilegeGraph.HostAccountsWritten` | internal/graph/graph.go:164-169 | the derived accounts are created as foothold/user and root/root, existing ones stay as they are, both are attached to their asset |
| `PrivilegeGraph.EscalationDerived` | internal/graph/graph.go:160-181 | the edge from foothold to root carries the finding's weight, technique, CWE and risk unless one no dearer is there; no other edge changes |
| `PrivilegeGraph.CredentialRecorded` | internal/graph/graph.go:211-229 | the credential keeps its first principal, root can read it, it is valid on the foothold; nothing else changes |
| `PrivilegeGraph.CredentialJoined` | internal/graph/graph.go:234-240 | every reader of the credential is linked to every account of another asset it is valid on, with weight, principal and via text; existing links stay as they are |
| `PrivilegeGraph.EscalationWritten` | internal/graph/graph.go:129-132 | a manual edge runs from the first account to the second with the given properties, keeping risk and mark; nothing else changes |
| `PrivilegeGraph.ReuseWritten` | internal/graph/graph.go:137-139 | likewise for a manual reuse edge |
| `PrivilegeGraph.ReachableWellFormed` | internal/api/api.go:673-675 | in every graph any mix of manual and automatic writes can reach, every weight is positive and every relationship joins existing accounts |
| `GraphStore.Store.constructor` | internal/graph/graph.go:43-56 | a new store is the empty graph |
| `GraphStore.Store.SyncAsset` | internal/graph/graph.go:60-78 | sets the asset's name, target, criticality and exposure and changes nothing else |
| `GraphStore.Store.SyncAccount` | internal/graph/graph.go:117-124 | an account is written only on a projected asset; its automatic mark survives |
| `GraphStore.Store.MergeHostAccounts` | internal/graph/graph.go:163-169 | both derived accounts exist afterwards, existing ones keep their properties |
| `GraphStore.Store.AutoDeriveEscalation` | internal/graph/graph.go:160-181 | the in-place MERGE and guarded SET equal the keep-cheapest function on the whole graph; no effect without the asset |
| `GraphStore.MergeRows` | internal/graph/graph.go:234-240 | merging the matched pairs row by row, in any order, adds exactly the missing ones and counts all of them |
| `GraphStore.Store.AutoDeriveCredentialReuse` | internal/graph/graph.go:206-251 | the two transactions record this host and join it with every other; the result is the number of matched pairs |
| `GraphStore.Store.UpsertEscalation` | internal/graph/graph.go:129-132 | true exactly when both accounts exist; then the edge from the first to the second has the given technique, CWE and weight, keeps its risk and mark, and no other edge changes |
| `GraphStore.Store.UpsertCredentialReuse` | internal/graph/graph.go:137-139 | likewise for reuse, keeping principal, via text and mark |
| `DerivedGraph.SharingIsExposure` | internal/graph/graph.go:234-237 | the rows matched by the join are the ordered pairs of different hosts exposing the fingerprint |
| `DerivedGraph.DerivedShape` | internal/graph/graph.go:160-251 | after any run of automatic writes accounts, credential access, reuse and escalation edges are exactly those the findings call for |
| `CredentialReuse.ReuseEdgeIsShared` | internal/graph/graph.go:200-205 | every reuse edge joins root and foothold of two hosts that expose a common fingerprint |
| `CredentialReuse.ReuseClosure` | internal/graph/graph.go:200-240 | with no join outstanding the edge exists if and only if the hosts share a fingerprint; an outstanding join can only leave edges missing |
| `CredentialReuse.ExposedAreRecorded` | internal/graph/graph.go:211-229 | with assets projected first, exposure is exactly what was recorded |
| `CredentialReuse.ReuseOrderIrrelevant` | internal/graph/graph.go:200-251 | two settled runs that recorded the same credentials, in any order and multiplicity, have the same reuse edges |
| `CredentialReuse.WeightOfFirstJoin` | internal/graph/graph.go:234-240 | the weight of a reuse edge is that of the first join that matched its two hosts, whatever is derived later |
| `CredentialReuse.OrderedPairsCount` | internal/graph/graph.go:234-240 | k hosts make k*(k-1) ordered pairs |
| `CredentialReuse.ReuseCount` | internal/graph/graph.go:231-251 | the number a derivation reports is k*(k-1) for k hosts exposing the fingerprint |
| `CheapestEscalation.KeepCheapestTracks` | internal/graph/graph.go:170-174 | one more finding keeps the edge equal to the earliest of the cheapest offers |
| `CheapestEscalation.CheapestEscalationKept` | internal/graph/graph.go:155-181 | after any run without manual escalation edges a host has an escalation edge if and only if it had a finding, carrying all properties of the earliest of the cheapest |
| `CheapestEscalation.WeightOfWorstFinding` | internal/graph/graph.go:141-181 | in such runs the edge weight is the weight of the greatest risk seen, and always belongs to the stored risk |
| `EscalationPath.WeightsOfIs` | internal/graph/graph.go:331 | the search sees exactly the two kinds of relationships, in their direction, with their weights |
| `EscalationPath.CostOfParts` | internal/graph/graph.go:331-332 | the cost of a path is the sum over its parts |
| `EscalationPath.AddedEscalation` | internal/api/api.go:673-676 | a manual escalation opens a one-step path from the first account to the second, of the weight sent or of 1 when that is not positive |
| `EscalationPath.AddedReuse` | internal/api/api.go:709-712 | likewise a manual reuse, of 3 when the weight sent is not positive |
| `EscalationPath.Frontier` | internal/graph/graph.go:325-331 | any path ends settled and no cheaper than its label, or some open node is no dearer |
| `EscalationPath.Cheapest` | internal/graph/graph.go:331 | picks an open node of least cost |
| `EscalationPath.Expand` | internal/graph/graph.go:331 | following a node's relationships keeps labels sound and settles the node |
| `EscalationPath.Dijkstra` | internal/graph/graph.go:325-344 | finds a path if and only if one exists, of least total weight among all paths |
| `PrivEscQuery.FindPrivEscPath` | internal/graph/graph.go:328-377 | not found if and only if an account is missing or no directed path exists; otherwise reports a real cheapest path: each account beside the name of an asset it is attached to, each step with its type, technique, CWE and rounded weight, and the rounded cost |
| `PrivEscQuery.RoundingDrift` | internal/graph/graph.go:367-375 | rounding each of n step weights drifts by at most 0.005 n |
| `PrivEscQuery.TotalAgainstSteps` | internal/graph/graph.go:354-375 | the reported total differs from the sum of n reported steps by at most 0.005 (n + 1) |
| `PrivEscQuery.DerivedWeightsOnGrid` | internal/graph/graph.go:144-198 | in a graph written by scans every weight is a whole hundredth |
| `PrivEscQuery.DerivedTotalIsExact` | internal/graph/graph.go:354-375 | in such a graph the reported total is exactly the sum of the reported steps |
| `HostChains.ChainIsPath` | internal/graph/graph.go:325-327 | a chain of hosts spells a path of the same cost |
| `HostChains.PathIsChain` | internal/graph/graph.go:160-251 | every path from a foothold to a root spells a chain of hosts |
| `HostChains.PathsAlternate` | internal/graph/graph.go:160-251 | such paths alternate escalation and reuse and have odd length |
| `HostChains.PathsAreReportedChains` | internal/graph/graph.go:160-251 | a path from foothold@a to root@b exists if and only if a chain of hosts from a to b does, each with a finding, neighbours sharing a credential |
| `HostChains.LeastEffortIsLeastChain` | internal/graph/graph.go:325-377 | the least effort is the least total over such chains, and a chain attains it |
| `EffortOverTime.StepNoDearer` | internal/graph/graph.go:155-251 | one automatic write removes no relationship and raises no weight |
| `EffortOverTime.EffortNeverRisesOverTime` | internal/graph/graph.go:155-251 | from any graph, over any further scans, every path persists and gets no dearer, so the least effort never rises |
| `ScanHistory.InterleavingIsOrderly` | internal/engine/processor.go:61-122 | however many workers interleave their writes, nothing is written manually, assets are projected before anything is derived on them, every recorded credential is joined later |
| `ScanHistory.OrderlyIsTidy` | internal/engine/processor.go:61-122 | such operations meet the conditions of the derived graph and leave no join outstanding |
| `ScanHistory.SequentialInterleaves` | cmd/worker/main.go:52-77 | scans that follow one another are one such interleaving |
| `ScanHistory.InterleavingEffect` | internal/engine/processor.go:98-118 | exposure and escalatable hosts after any interleaving of finished scans are exactly what their findings say |
| `ScanHistory.ReuseAfterScans` | internal/engine/processor.go:110-118 | after any interleaving the reuse edges are root@x to foothold@y for exactly the different hosts that leaked a common credential |
| `ScanHistory.EscalationAfterScans` | internal/engine/processor.go:98-118 | after any interleaving root on b is reachable from a foothold on a if and only if the findings form a chain of hosts from a to b |
| `ScanHistory.ClimbWeight` | internal/graph/graph.go:155-181 | the escalation weight of a host is that of its worst finding |
| `ScanHistory.HopWeight` | internal/graph/graph.go:234-240 | the reuse weight between two hosts is that of the first join of a credential both had exposed |
| `ScanHistory.EffortAfterScans` | internal/graph/graph.go:325-377 | the cheapest escalation costs the least total of such weights over the chains of the findings, and a chain attains it |
| `Assets.ExposureIff` | internal/graph/graph.go:58-67 | external exactly when tagged public, external or internet, otherwise internal |
| `AssetGraph.AssetProjected` | internal/graph/graph.go:70-78 | a node carries its own asset's properties; no other node changes |
| `AssetGraph.FindingLinked` | internal/graph/graph.go:81-91 | a finding is stored and hangs on its own asset, if that is projected; nothing else changes |
| `AssetGraph.FindingScored` | internal/graph/graph.go:82-90 | title, CWE and score of a finding reach the graph as they are |
| `AssetGraph.ReachabilityLinked` | internal/graph/graph.go:95-101 | a link runs from source to destination with port and protocol, if both are projected; nothing else changes |
| `AssetGraph.ReachableWellFormed` | internal/graph/graph.go:70-101 | in every reachable asset graph relationships join existing nodes and risks are scores |
| `AttackTrails.NormaliseHops` | internal/graph/graph.go:410-415 | below 1 becomes 4, above 8 becomes 8, values between stay |
| `AttackTrails.AttackTrailIff` | internal/graph/graph.go:418-424 | the trails asked for, in elementary terms: from an external asset to the target, each link in the graph and none twice, each asset with a vulnerability of at least the asked risk |
| `AttackTrails.NextLevelExact` | internal/graph/graph.go:420-424 | extending all trails of length k gives exactly the trails of length k + 1, none reusing a relationship |
| `AttackTrails.TakeUpTo` | internal/graph/graph.go:430-432 | rows stay distinct, within the limit, and nothing is dropped while there is room |
| `AttackTrails.FindTrails` | internal/graph/graph.go:418-432 | the rows are attack trails, distinct, shortest first, at most 50; fewer than 50 are all of them, and 50 omit no shorter one |
| `AttackPaths.PickTopVuln` | internal/graph/graph.go:625-639 | the first of the vulnerabilities of greatest risk; none exactly when no risk exceeds -1 |
| `AttackPaths.DescribeHop` | internal/graph/graph.go:446-459 | the hop shows its node and the most dangerous of its listed vulnerabilities, for any threshold in a reachable graph and for thresholds above -1 in any |
| `AttackPaths.ScorePath` | internal/graph/graph.go:439-469 | MaxRisk is the greatest hop risk (at least 0) and PathRisk the rounded average |
| `AttackPaths.SumRiskConcat` | internal/graph/graph.go:439-469 | the summed risk adds up hop by hop |
| `AttackPaths.RankedIsStableSort` | internal/graph/graph.go:473-479 | a permutation in which an earlier path has a greater maximum risk, or the same and is no longer; ties keep their order |
| `AttackPaths.FindAttackPaths` | internal/graph/graph.go:403-481 | at most 50 paths without repetition, greatest maximum risk first and shorter first among equals; each follows an attack trail of the normalised length, is scored by its hops and shows the worst weakness of every node (for any threshold in a reachable graph, for thresholds above -1 in any); every attack trail is answered unless 50 others that are no longer are |
| `AttackPaths.GoodPathBounds` | internal/graph/graph.go:439-469 | for every answered path round2(minRisk) <= PathRisk <= MaxRisk when minRisk >= 0 |
| `AttackPaths.AnswerIsComplete` | internal/graph/graph.go:406-432 | scoring and ranking lose no row, so an unanswered trail means 50 answers that are no longer |
| `SubnetReach.SameSubnet` | internal/engine/processor.go:179-191 | prefixes agree if and only if both addresses are private (section 3 of RFC 1918) with equal first three octets |
| `SubnetReach.SubnetText` | internal/engine/processor.go:190 | the prefix is printed from the first three octets |
| `SubnetReach.PeersIff` | internal/engine/processor.go:163-171 | peers in octets: two different IP assets in one of the three private ranges with equal first three octets |
| `SubnetReach.LinkedIs` | internal/engine/processor.go:172-173 | a derivation adds exactly the links of its asset with projected peers, with port 0 and protocol ip, and changes nothing else |
| `SubnetReach.DeriveSubnetReachability` | internal/engine/processor.go:151-177 | links the asset both ways with exactly its projected peers and counts all peers |
| `SubnetReach.UninterruptedIsLinkAll` | internal/engine/processor.go:164-175 | a worker left alone between its writes links its asset both ways with every projected peer |
| `SubnetReach.RunKeepsInv` | internal/engine/processor.go:127-177 | under every interleaving of single writes, failures and crashes, links join peers, and a derivation has written or is about to write every link its listing allows |
| `SubnetReach.ScannedPairIsLinked` | internal/engine/processor.go:164-175 | two peers whose derivations both went through are linked both ways: the later listing saw both |
| `SubnetReach.ReachabilityConfluence` | internal/engine/processor.go:127-191 | reachability is always part of the peer relation and, once a derivation of every IP asset went through, in any order, with repeats and however interleaved, exactly it |
| `SubnetSymmetry.OneWayLinkIff` | internal/engine/processor.go:172-173 | in every reachable state, exactly which step leaves a link without its opposite |
| `SubnetSymmetry.UndisturbedIsSymmetric` | internal/engine/processor.go:151-152 | without failed writes, crashes and first projections halfway through a pair, every link has its opposite or its worker is about to write it |
| `SubnetSymmetry.OneWayLinkRun` | internal/engine/processor.go:172-173 | a run without failures that ends with a one-way link and nothing under way |
| `TokenBucket.LevelIsLeastAllowance` | internal/auth/hardening.go:134-149 | the tokens found are the least, over all earlier requests, of burst + earned - admitted since |
| `TokenBucket.AdmittedIff` | internal/auth/hardening.go:126-150 | a request is admitted if and only if every window ending at it stays within burst + rate * length |
| `TokenBucket.WindowBound` | internal/auth/hardening.go:126-150 | no window of one client's requests admits more than burst + rate * length |
| `TokenBucket.DeniesEverythingIff` | internal/auth/hardening.go:104-109 | everything is denied if and only if the rate is below 0.5 per second |
| `RateLimiter.DropIdle` | internal/auth/hardening.go:153-160 | the delete loop removes exactly the idle clients, in any iteration order |
| `RateLimiter.Limiter.constructor` | internal/auth/hardening.go:104-109 | a new limiter knows no client and has burst twice the rate |
| `RateLimiter.Limiter.Touch` | internal/auth/hardening.go:129-141 | finds or makes the client's bucket and refills it, changing no other bucket |
| `RateLimiter.Limiter.Evict` | internal/auth/hardening.go:152-160 | the view afterwards is the view without idle clients |
| `RateLimiter.Limiter.AllowRequest` | internal/auth/hardening.go:126-150 | one request changes the shared maps and cells exactly as the state function says, and admits exactly when a token was found |
| `Eviction.DecisionIsTheClientsOwn` | internal/auth/hardening.go:126-160 | every decision depends on the client's own call times alone, with or without eviction |
| `Eviction.EvictionUnobservable` | internal/auth/hardening.go:152-160 | the evicting limiter decides as one that never evicts, on runs disordered by up to 299 seconds |
| `Eviction.EvictionToleratesDisorderIff` | internal/auth/hardening.go:117-160 | that bound is exact: beyond 299 seconds some run is decided differently |
| `Eviction.IntervalBound` | internal/auth/hardening.go:126-160 | in any interval of a run, evictions and other clients included, a client is admitted at most 2 * rate + rate * length times |
| `Text.ItoaInjective` | internal/audit/audit.go:52 | printed status codes determine the number |
| `Text.ItoaValue` | internal/audit/audit.go:52 | the printed digits denote the number |
| `Text.JoinInjective` | internal/audit/audit.go:38-56 | a joined record of separator-free fields comes from those fields only |
| `AuditChain.VerifyChain` | internal/audit/audit.go:64-79 | accepts exactly the intact logs, otherwise names the first bad entry |
| `AuditChain.CanonicalText` | internal/audit/audit.go:38-56 | the canonical text, field by field |
| `AuditChain.HeadCommits` | internal/audit/audit.go:3-7 | two logs that verify and end in the same hash have the same length and the same records throughout |
| `AuditChain.HashesDistinct` | internal/audit/audit.go:35-37 | all heads along an intact log differ |
| `AuditChain.DeletionDetectedIff` | internal/audit/audit.go:3-7 | deleting an entry is detected if and only if it is not the last; the next entry is the first bad one |
| `AuditChain.TruncationUndetected` | internal/audit/audit.go:64-79 | any prefix of an intact log is intact |
| `AuditChain.InsertionDetected` | internal/audit/audit.go:3-7 | no entry can be inserted before an existing one |
| `AuditChain.ModificationDetectedIff` | internal/audit/audit.go:3-7 | a replaced entry goes unnoticed if and only if it has the right link, its own recomputed hash and, unless it is the last, the old hash |
| `AuditChain.ModificationDetected` | internal/audit/audit.go:3-7 | without collisions, a non-final replacement that goes unnoticed has the same canonical record |
| `AuditChain.CanonicalDeterminesIff` | internal/audit/audit.go:38-56 | the canonical record determines the content if and only if no field before the status contains the separator and no part of the remote address but the last is a printed number |
| `AuditLog.NextKeepsInv` | internal/store/audit.go:17-53 | every step of every appender keeps the chain, the lock discipline and the numbering |
| `AuditLog.RunKeepsInv` | internal/store/audit.go:17-53 | hence they hold throughout every interleaving |
| `AuditLog.ByNumberIsCommitOrder` | internal/store/audit.go:81-100 | reading rows in sequence order is reading them in commit order |
| `AuditLog.ChainNeverForks` | internal/store/audit.go:13-19 | under every interleaving and any aborts the first row links to GENESIS and each other row to the hash of the row just before it |
| `AuditLog.TimestampIsHashed` | internal/audit/audit.go:42 | records that differ in the timestamp have different canonical forms |
| `AuditLog.LogVerifiesIff` | internal/store/audit.go:40-52 | a row verifies if and only if its clock reading was a whole microsecond, the log if and only if all were |
| `AuditLog.WholeMicrosecondsVerify` | internal/db/migrations/0002_audit.sql:7 | with readings the column stores unchanged every interleaving leaves a log that verifies |
| `AuditLog.OneAppendBroken` | internal/store/audit.go:40-52 | a run of one append, at a clock reading of one nanosecond, whose log does not verify |
| `AuditStore.Store.constructor` | internal/db/migrations/0002_audit.sql:5-16 | the table starts empty |
| `AuditStore.Store.AppendAudit` | internal/store/audit.go:20-53 | keeps the caller's fields, fills time, link to the newest row, hash and number in place, and appends the stored form |
| `AuditStore.Store.VerifyAudit` | internal/store/audit.go:81-100 | reads the rows in sequence order, accepts exactly an intact table and otherwise names the first bad row |
| `ScanLifecycle.NextKeepsInv` | cmd/worker/main.go:52-77 | every step of API, queue and workers keeps the job invariant |
| `ScanLifecycle.AtMostOnce` | internal/queue/queue.go:33-51 | a job is queued at most once, held by at most one worker, never both, and jobs leave the queue in the order they entered it |
| `ScanLifecycle.StatusMovesForwardIff` | internal/store/store.go:145-164 | every step moves a status forward, except exactly a failure report after a completion whose reply was lost |
| `ScanLifecycle.StatusAfter` | internal/store/store.go:105-164 | which status each step writes, and to which job only |
| `ScanLifecycle.TerminalForever` | internal/store/store.go:152-164 | a job's terminal status never changes unless the reply to its own completion was lost |
| `ScanLifecycle.LostReplyBreaksTerminal` | cmd/worker/main.go:73-76 | a run in which a completed job ends up failed |
| `JobQueue.Queue.constructor` | internal/queue/queue.go:19-24 | a new queue has no jobs |
| `JobQueue.Queue.Enqueue` | internal/queue/queue.go:33-35 | the job waits behind all others |
| `JobQueue.Queue.Dequeue` | internal/queue/queue.go:38-51 | removes and returns the longest-waiting job; none exactly when the queue is empty |
| `Scanners.ForProfile` | internal/scanner/scanner.go:75-86 | which scanners each profile runs; never none |
| `Scanners.ScanGuarantees` | internal/scanner/scanner.go:3-7 | production never mocks, development never fails, and network scans run for real only where live scanning is allowed |
| `Scanners.OutcomeIff` | internal/scanner/nuclei.go:19-48 | exactly when each of the four scanners runs for real; otherwise an error in production and mock output in development |
| `ScanEngine.Store.constructor` | internal/store/store.go:20-24 | a store starts without assets, jobs, findings or graph writes |
| `ScanEngine.Store.CreateAsset` | internal/store/store.go:31-43 | adds the asset and changes nothing else |
| `ScanEngine.Store.CreateScanJob` | internal/store/store.go:105-117 | adds one queued job of the given profile, keeping the store's invariant |
| `ScanEngine.Store.MarkRunning` | internal/store/store.go:145-150 | sets the status of an existing job, whatever it was; may fail with or without effect |
| `ScanEngine.Store.MarkCompleted` | internal/store/store.go:152-157 | sets status and mock flag of an existing job, whatever it was; called with the verdict of a run it keeps the store's invariant |
| `ScanEngine.Store.MarkFailed` | internal/store/store.go:159-164 | sets status and message of an existing job, whatever it was; may fail with or without effect |
| `ScanEngine.Store.CompletedWasScanned` | internal/engine/processor.go:133-148 | in every reachable store each completed job had a scanner of its profile return without error, and in production used no mock data |
| `ScanEngine.Store.Persist` | internal/engine/processor.go:89-121 | stores exactly the accepted findings, in order, attaches exactly those to their asset, wires exactly those into the privilege graph, and counts them |
| `ScanEngine.Store.RunScanners` | internal/engine/processor.go:72-122 | the count equals the findings stored in this run; mock flag and error messages are exactly those of the results |
| `ScanEngine.PrivEscCwes` | internal/compliance/compliance.go:183-207 | the weaknesses that count as privilege escalation and as credential leak |
| `ScanEngine.OpsOfIs` | internal/engine/processor.go:100-115 | the privilege-graph writes a stored finding asks for |
| `ScanEngine.StoredOfConcat` | internal/engine/processor.go:89-121 | of a list of findings exactly the accepted ones are stored, in order |
| `ScanEngine.StoredConcat` | internal/engine/processor.go:72-122 | of a run exactly the accepted findings of output that parsed, in order |
| `ScanEngine.MessagesConcat` | internal/engine/processor.go:75-79 | the errors are those of the failed scanners, in order |
| `ScanEngine.JoinErrorsConcat` | internal/engine/processor.go:136 | the errors are joined by semicolons |
| `ScanEngine.JudgedIs` | internal/engine/processor.go:133-146 | the verdict in terms of the results: failed exactly if a scanner erred and nothing was stored, the message, and the mock mark |
| `ScanEngine.Store.Process` | internal/engine/processor.go:46-149 | given results of the scanners of the job's profile: failed with the joined errors exactly when a scanner errored and nothing was stored, completed otherwise; no other job changes; an error exactly for an unknown job or asset or a status update that fails, and what each leaves behind |
| `ScanEngine.NoEmptySuccess` | internal/engine/processor.go:133-142 | a verdict of completed means that a scanner of the profile returned without error |
| `ScanEngine.ProductionNeverMocks` | internal/scanner/scanner.go:63-72 | in production no result of any profile is mock data, in development none is an error |
| `ScanEngine.FailsWithoutAllFailingIff` | internal/engine/processor.go:133-142 | over the results a profile can produce, exactly when the verdict says all scanners failed although some did not |
| `ScanEngine.CleanScansReportedAsFailure` | internal/engine/processor.go:136 | one such scan: nmap errors, the other three critical scanners run cleanly |
| `ApiKeys.ParseKeys` | internal/auth/auth.go:96-126 | every key is a trimmed non-empty secret with a role, from the last entry whose text gives it, and every secret an entry gives is a key; enabled when there is one; one warning for each entry passed over |
| `ApiKeys.TableGives` | internal/auth/auth.go:96-126 | a secret is a key exactly if an entry's text gives it, and then the last such entry's |
| `ApiKeys.WarningIs` | internal/auth/auth.go:107-121 | which warning an entry draws, by its text: none when blank or a key, malformed with fewer than two colons, otherwise an empty secret or invalid role |
| `KeySyntax.TrimIs` | internal/auth/auth.go:102-116 | trimming leaves exactly what is between the outer blanks |
| `KeySyntax.SpaceIs` | internal/auth/auth.go:102 | the white space that is trimmed, by code point |
| `KeySyntax.LowerIs` | internal/auth/auth.go:43 | capital letters become small ones, other ASCII characters stay |
| `KeySyntax.OneEntry` | internal/auth/auth.go:111-122 | an entry name:secret:role with any blanks is a key exactly if its trimmed secret is not empty and its trimmed lower-cased role is a role name, and which key |
| `KeySyntax.EntryGivesIff` | internal/auth/auth.go:107-123 | an entry parses to a key exactly if its text gives it |
| `KeySyntax.FewColons` | internal/auth/auth.go:111-115 | an entry with fewer than two colons is no key |
| `ApiKeys.Lookup` | internal/auth/auth.go:131-144 | comparing with every key finds exactly the principal of an equal secret |
| `KeySyntax.RoleRoundTrip` | internal/auth/auth.go:28-53 | the printed name of a role parses back to it |
| `ApiKeys.PrintParses` | internal/auth/auth.go:107-123 | a printed entry parses back to its label, secret and role |
| `ApiKeys.TrimmedSpecSameTable` | internal/auth/auth.go:102 | trimming the whole specification changes neither table nor warnings |
| `ApiKeys.KeySpecRoundTrip` | internal/auth/auth.go:96-144 | with any malformed text between printed entries, each secret answers with the last entry carrying it, other secrets with nothing, and the malformed text only adds its own warnings |

## Left out

- Floating point: scores, weights, tokens and times are exact reals, timestamps whole nanoseconds.
- `apoc.algo.dijkstra`: a foreign procedure. The model supplies its own search and proves the documented contract. For equal start and target accounts the model answers the empty path; what the procedure answers there is not known from the repository.
- Cypher evaluation: variable-length matching is modelled by level-wise enumeration of trails; which of several equally long trails fill the last of 50 rows, and the order of vulnerabilities within a row, are left open as they are in the query.
- `AttackPaths.Ranked`: the library's stable sort is a function on sequences, proved to be a stable sorted permutation, not an array sorted in place.
- `PrivEscQuery.FindPrivEscPath`: requires the positive weights that `PrivilegeGraph.ReachableWellFormed` proves of every reachable graph.
- Not stored: job timestamps, and CVSS, known-exploit mark and severity on vulnerability nodes. `ExportGraph`, which reads every node and edge for the dashboard, is not part of this model.
- ScanEngine.Store.Process: scanner results are a parameter, one for each scanner of the job's profile as that scanner may give it; graph writes have the effect of their query, so a graph that is disabled or fails and the scan timeout are not in this class. Subnet derivation at the end of a scan is in `SubnetReach` and `SubnetSymmetry`.
- `ScanHistory`: the results are about finished scans whose graph writes took effect. Scans cut short between recording a credential and its join are covered by the run lemmas of `DerivedGraph`, `CredentialReuse` and `HostChains`, which allow outstanding joins.
- `SubnetReach`: manual reachability writes (`internal/api/api.go:475`, `internal/api/api.go:539`) are not steps, so what is said of reachability holds of derived links. Each query is an atomic step. Textual address parsing is replaced by the parsed address; a write whose reply is lost counts as written.
- `AuditLog`: rows of one transaction, the lock and each query are atomic steps; timestamps are truncated to microseconds, as the driver does. SHA-256 and time formatting are parameters; freedom from collisions is a hypothesis about the strings hashed, never about all strings. Status numbers are unbounded integers.
- Drivers, sessions and retries, including a retried queue push after a lost reply, and redelivery after a crash (there is none, so nothing is claimed about liveness).
- `ApiKeys`: lower-casing is exact for the characters that can yield an ASCII letter; constant-time comparison is modelled as equality.
- `RateLimit` with a non-positive rate installs no limiter; the address extraction and the middleware around `allow` are not part of this model.
- `ScanLifecycle`: enqueueing succeeds once or the job is given up and stays queued forever.
- The threat-intelligence feed is a flag on the finding; normalisation of scanner output is an arbitrary list of findings.
- HTTP handlers, CORS, OIDC, compliance texts, SLA, configuration, exports, `ListAudit` and the dashboard: no property beyond single lookups.
