/** The graph package's write operations, as statements that update the stored graph in
    place. Each is proved against the graph function that specifies it. */
module GraphStore {
  import opened Prelude
  import opened Assets
  import opened RiskScore
  import opened PrivilegeGraph

  /** The rows in `done` have been merged into m. */
  ghost predicate Merged(reuses: map<(Id, Id), Reuse>, done: set<(Id, Id)>, edge: Reuse, m: map<(Id, Id), Reuse>) {
    && (forall k :: k in m <==> k in done || k in reuses)
    && forall k :: k in m ==> m[k] == if k in reuses then reuses[k] else edge
  }

  lemma MergedIsMergeAll(reuses: map<(Id, Id), Reuse>, rows: set<(Id, Id)>, edge: Reuse, m: map<(Id, Id), Reuse>)
    requires Merged(reuses, rows, edge, m)
    ensures m == MergeAll(reuses, rows, edge)
  {
  }

  lemma MergeOne(reuses: map<(Id, Id), Reuse>, done: set<(Id, Id)>, edge: Reuse, m: map<(Id, Id), Reuse>, row: (Id, Id))
    requires Merged(reuses, done, edge, m)
    ensures Merged(reuses, done + {row}, edge, if row in m then m else m[row := edge])
  {
  }

  method MergeRows(reuses: map<(Id, Id), Reuse>, rows: set<(Id, Id)>, edge: Reuse)
    returns (merged: map<(Id, Id), Reuse>, n: nat)
    ensures merged == MergeAll(reuses, rows, edge)
    ensures n == |rows|
  {
    merged, n := reuses, 0;
    var done: set<(Id, Id)> := {};
    while done != rows
      invariant done <= rows && n == |done|
      invariant Merged(reuses, done, edge, merged)
      decreases |rows - done|
    {
      var row :| row in rows && row !in done;
      MergeOne(reuses, done, edge, merged, row);
      if row !in merged {
        merged := merged[row := edge];
      }
      n := n + 1;
      assert rows - done == (rows - (done + {row})) + {row};
      done := done + {row};
    }
    MergedIsMergeAll(reuses, rows, edge, merged);
  }

  class Store {
    var assets: map<Id, AssetNode>
    var accounts: map<Id, Account>
    var hasAccount: set<(Id, Id)>
    var escalations: map<(Id, Id), Escalation>
    var reuses: map<(Id, Id), Reuse>
    var principals: map<string, string>
    var canRead: map<(Id, string), string>
    var validOn: set<(string, Id)>

    function View(): Graph
      reads this
    {
      Graph(assets, accounts, hasAccount, escalations, reuses, principals, canRead, validOn)
    }

    constructor ()
      ensures View() == EMPTY_GRAPH
    {
      assets, accounts, hasAccount, escalations := map[], map[], {}, map[];
      reuses, principals, canRead, validOn := map[], map[], map[], {};
    }

    /** The asset as registered; its exposure is read off its tags. */
    method SyncAsset(assetId: Id, name: string, target: string, criticality: string, tags: seq<string>)
      modifies this`assets
      ensures View()
          == PrivilegeGraph.SyncAsset(old(View()), assetId, AssetNode(name, target, criticality, Exposure(tags)))
    {
      assets := assets[assetId := AssetNode(name, target, criticality, Exposure(tags))];
    }

    method SyncAccount(id: Id, username: string, privilege: string, assetId: Id)
      modifies this`accounts, this`hasAccount
      ensures View() == PrivilegeGraph.SyncAccount(old(View()), id, username, privilege, assetId)
    {
      if assetId !in assets {
        return;
      }
      var auto := false;
      if id in accounts {
        auto := accounts[id].auto;
      }
      accounts := accounts[id := Account(username, privilege, assetId, auto)];
      hasAccount := hasAccount + {(assetId, id)};
    }

    method MergeHostAccounts(assetId: Id)
      modifies this`accounts, this`hasAccount
      ensures View() == EnsureHostAccounts(old(View()), assetId)
    {
      var low, high := Foothold(assetId), Root(assetId);
      if low !in accounts {
        accounts := accounts[low := Account("foothold", "user", assetId, true)];
      }
      if high !in accounts {
        accounts := accounts[high := Account("root", "root", assetId, true)];
      }
      hasAccount := hasAccount + {(assetId, low)};
      hasAccount := hasAccount + {(assetId, high)};
      assert hasAccount == old(hasAccount) + {(assetId, low), (assetId, high)};
    }

    method AutoDeriveEscalation(assetId: Id, cwe: string, technique: string, risk: real)
      modifies this
      ensures View() == DeriveEscalation(old(View()), assetId, cwe, technique, risk)
    {
      if assetId !in assets {
        return;
      }
      var weight := AutoEscalationWeight(risk);
      MergeHostAccounts(assetId);
      var k := (Foothold(assetId), Root(assetId));
      if k !in escalations {
        escalations := escalations[k := Escalation(weight, technique, cwe, Some(risk), true)];
      }
      var r := escalations[k];
      if r.weight > weight {
        escalations := escalations[k := Escalation(weight, technique, cwe, Some(risk), r.auto)];
      }
    }

    /** Two transactions: record this host's access, then join it with every other host
        exposing the fingerprint. Returns the number of matched pairs. */
    method AutoDeriveCredentialReuse(assetId: Id, principal: string, fp: string, technique: string, risk: real)
      returns (n: nat)
      modifies this
      ensures var recorded := RecordCredential(old(View()), assetId, principal, fp, technique);
              && View() == JoinCredential(recorded, fp, AutoReuseWeight(risk))
              && n == |Sharing(recorded, fp)|
    {
      if assetId in assets {
        MergeHostAccounts(assetId);
        if fp !in principals {
          principals := principals[fp := principal];
        }
        canRead := canRead[(Root(assetId), fp) := technique];
        validOn := validOn + {(fp, Foothold(assetId))};
      }
      ghost var recorded := View();
      assert recorded == RecordCredential(old(View()), assetId, principal, fp, technique);
      n := MergeReuses(fp, AutoReuseWeight(risk));
    }

    method MergeReuses(fp: string, weight: real) returns (n: nat)
      modifies this`reuses
      ensures View() == JoinCredential(old(View()), fp, weight)
      ensures n == |Sharing(old(View()), fp)|
    {
      reuses, n := MergeRows(reuses, Sharing(View(), fp), NewReuse(View(), fp, weight));
    }

    /** Manual edges. The result tells whether both accounts existed. */
    method UpsertEscalation(from: Id, to: Id, technique: string, cwe: string, weight: real) returns (ok: bool)
      modifies this`escalations
      ensures ok <==> from in accounts && to in accounts
      ensures !ok ==> escalations == old(escalations)
      ensures ok ==>
                && (forall k :: k in escalations <==> k in old(escalations) || k == (from, to))
                && (forall k :: k in old(escalations) && k != (from, to) ==> escalations[k] == old(escalations)[k])
                && escalations[(from, to)].technique == technique && escalations[(from, to)].cwe == cwe
                && escalations[(from, to)].weight == weight
                && if (from, to) in old(escalations)
                   then && escalations[(from, to)].risk == old(escalations)[(from, to)].risk
                        && escalations[(from, to)].auto == old(escalations)[(from, to)].auto
                   else escalations[(from, to)].risk == None && !escalations[(from, to)].auto
      ensures View() == PrivilegeGraph.UpsertEscalation(old(View()), from, to, technique, cwe, weight)
    {
      if from !in accounts || to !in accounts {
        return false;
      }
      var k := (from, to);
      if k !in escalations {
        escalations := escalations[k := Escalation(weight, technique, cwe, None, false)];
      }
      escalations := escalations[k := escalations[k].(technique := technique)];
      escalations := escalations[k := escalations[k].(cwe := cwe)];
      escalations := escalations[k := escalations[k].(weight := weight)];
      assert View().escalations
          == PrivilegeGraph.UpsertEscalation(old(View()), from, to, technique, cwe, weight).escalations;
      return true;
    }

    method UpsertCredentialReuse(from: Id, to: Id, weight: real) returns (ok: bool)
      modifies this`reuses
      ensures ok <==> from in accounts && to in accounts
      ensures !ok ==> reuses == old(reuses)
      ensures ok ==>
                && (forall k :: k in reuses <==> k in old(reuses) || k == (from, to))
                && (forall k :: k in old(reuses) && k != (from, to) ==> reuses[k] == old(reuses)[k])
                && reuses[(from, to)].weight == weight
                && if (from, to) in old(reuses)
                   then && reuses[(from, to)].principal == old(reuses)[(from, to)].principal
                        && reuses[(from, to)].via == old(reuses)[(from, to)].via
                        && reuses[(from, to)].auto == old(reuses)[(from, to)].auto
                   else reuses[(from, to)] == Reuse(weight, None, None, false)
      ensures View() == PrivilegeGraph.UpsertCredentialReuse(old(View()), from, to, weight)
    {
      if from !in accounts || to !in accounts {
        return false;
      }
      var k := (from, to);
      if k !in reuses {
        reuses := reuses[k := Reuse(weight, None, None, false)];
      }
      reuses := reuses[k := reuses[k].(weight := weight)];
      assert View().reuses == PrivilegeGraph.UpsertCredentialReuse(old(View()), from, to, weight).reuses;
      return true;
    }
  }
}
