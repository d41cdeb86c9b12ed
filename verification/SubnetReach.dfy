/** Reachability between assets in one private /24, derived scan by scan. */
module SubnetReach {
  import opened Prelude
  import opened Text
  import opened AssetGraph

  type Octet = n: nat | n < 256

  /** What parsing an asset's target as an IP address gives. */
  datatype Address = NotAnAddress | V4(a: Octet, b: Octet, c: Octet, d: Octet) | V6

  datatype AssetType = IP | Domain | Repo

  /** A registered asset; `address` is what its target parses to. */
  datatype Asset = Asset(
    kind: AssetType, target: string, address: Address, name: string, criticality: string, tags: seq<string>)

  /** The private ranges of RFC 1918, section 3. */
  predicate IsPrivate(ip: Address) {
    ip.V4? && (ip.a == 10 || (ip.a == 172 && 16 <= ip.b <= 31) || (ip.a == 192 && ip.b == 168))
  }

  function PrivateSubnet24(target: Address): Option<string> {
    if IsPrivate(target) then Some(Join([Itoa(target.a), Itoa(target.b), Itoa(target.c)], '.')) else None
  }

  /** The printed prefix is the same exactly for two private addresses that agree on
      their first three octets. */
  lemma SameSubnet(p: Address, q: Address)
    ensures PrivateSubnet24(p).Some? && PrivateSubnet24(p) == PrivateSubnet24(q) <==>
              IsPrivate(p) && IsPrivate(q) && p.a == q.a && p.b == q.b && p.c == q.c
  {
    if IsPrivate(p) && IsPrivate(q) && PrivateSubnet24(p) == PrivateSubnet24(q) {
      var ps, qs := [Itoa(p.a), Itoa(p.b), Itoa(p.c)], [Itoa(q.a), Itoa(q.b), Itoa(q.c)];
      JoinInjective(ps, qs, '.');
      assert ps[0] == qs[0] && ps[1] == qs[1] && ps[2] == qs[2];
      ItoaInjective(p.a, q.a);
      ItoaInjective(p.b, q.b);
      ItoaInjective(p.c, q.c);
    }
  }

  type Registry = map<Id, Asset>

  /** Two different IP assets in the same private /24. */
  predicate Peers(registry: Registry, x: Id, y: Id) {
    && x != y && x in registry && y in registry && registry[x].kind == IP && registry[y].kind == IP
    && PrivateSubnet24(registry[x].address).Some?
    && PrivateSubnet24(registry[x].address) == PrivateSubnet24(registry[y].address)
  }

  /** The prefix is printed from the first three octets. */
  lemma SubnetText(p: Address)
    requires IsPrivate(p)
    ensures PrivateSubnet24(p) == Some(Itoa(p.a) + "." + (Itoa(p.b) + "." + Itoa(p.c)))
  {
    var a, b, c := Itoa(p.a), Itoa(p.b), Itoa(p.c);
    JoinCons(a, [b, c], '.');
    JoinCons(b, [c], '.');
    JoinCons(c, [], '.');
    assert [a] + [b, c] == [a, b, c] && [b] + [c] == [b, c] && [c] + [] == [c];
  }

  /** In octets: two different IP assets whose addresses lie in one of the ranges 10/8,
      172.16/12 and 192.168/16 and agree in the first three octets. */
  lemma PeersIff(registry: Registry, x: Id, y: Id)
    ensures Peers(registry, x, y) <==>
              && x != y && x in registry && y in registry && registry[x].kind == IP && registry[y].kind == IP
              && var p, q := registry[x].address, registry[y].address;
              && p.V4? && q.V4? && p.a == q.a && p.b == q.b && p.c == q.c
              && (p.a == 10 || (p.a == 172 && p.b in {16, 17, 18, 19, 20, 21, 22, 23, 24, 25, 26, 27, 28, 29, 30, 31})
                  || (p.a == 192 && p.b == 168))
  {
    if x in registry && y in registry {
      SameSubnet(registry[x].address, registry[y].address);
    }
  }

  // ---------- one derivation ----------

  function PeerSet(registry: Registry, x: Id): set<Id> {
    set y | y in registry && Peers(registry, x, y)
  }

  /** The pairs written for x: both ways with each peer that is projected, if x is. */
  function Links(g: Graph, x: Id, peers: set<Id>): set<(Id, Id)> {
    if x !in g.assets then {} else
    (set y | y in peers && y in g.assets :: (x, y)) + (set y | y in peers && y in g.assets :: (y, x))
  }

  function AddLinks(reach: map<(Id, Id), Link>, links: set<(Id, Id)>): (r: map<(Id, Id), Link>)
    ensures forall e :: e in r <==> e in reach || e in links
    ensures forall e :: e in r ==> r[e] == if e in links then Link(0, "ip") else reach[e]
  {
    reach + map e | e in links :: Link(0, "ip")
  }

  lemma AddOneLink(reach: map<(Id, Id), Link>, links: set<(Id, Id)>, e: (Id, Id))
    ensures AddLinks(reach, links)[e := Link(0, "ip")] == AddLinks(reach, links + {e})
  {
  }

  function LinkAll(g: Graph, x: Id, peers: set<Id>): Graph {
    g.(reach := AddLinks(g.reach, Links(g, x, peers)))
  }

  function Linked(registry: Registry, g: Graph, x: Id): Graph {
    LinkAll(g, x, PeerSet(registry, x))
  }

  /** What a derivation for x adds: links of protocol "ip" both ways with each projected
      peer, if x is projected; nothing else changes. */
  lemma LinkedIs(registry: Registry, g: Graph, x: Id)
    ensures var g' := Linked(registry, g, x);
            && (forall y, z :: (y, z) in g'.reach <==>
                  || (y, z) in g.reach
                  || ((y == x || z == x) && Peers(registry, y, z) && y in g.assets && z in g.assets))
            && (forall y, z :: (y, z) in g'.reach ==>
                  if (y == x || z == x) && Peers(registry, y, z) && y in g.assets && z in g.assets
                  then g'.reach[(y, z)] == Link(0, "ip") else g'.reach[(y, z)] == g.reach[(y, z)])
            && g' == g.(reach := g'.reach)
  {
  }

  lemma LinkOne(g: Graph, x: Id, peers: set<Id>, peer: Id)
    ensures UpsertReachability(UpsertReachability(LinkAll(g, x, peers), x, peer, 0, "ip"), peer, x, 0, "ip")
            == LinkAll(g, x, peers + {peer})
  {
    var links := Links(g, x, peers);
    if x in g.assets && peer in g.assets {
      AddOneLink(g.reach, links, (x, peer));
      AddOneLink(g.reach, links + {(x, peer)}, (peer, x));
      assert Links(g, x, peers + {peer}) == links + {(x, peer)} + {(peer, x)};
    } else {
      assert Links(g, x, peers + {peer}) == links;
    }
  }

  lemma LinkNone(g: Graph, x: Id)
    ensures LinkAll(g, x, {}) == g
  {
    assert Links(g, x, {}) == {};
    assert AddLinks(g.reach, {}) == g.reach;
  }

  /** The peers among some listed assets. */
  function Among(peers: set<Id>, listed: seq<Id>): set<Id> {
    set y | y in listed && y in peers
  }

  lemma AmongNext(peers: set<Id>, listed: seq<Id>, i: nat)
    requires i < |listed| && NoRepeats(listed)
    ensures listed[i] !in Among(peers, listed[..i])
    ensures Among(peers, listed[..i + 1]) == Among(peers, listed[..i]) + if listed[i] in peers then {listed[i]} else {}
  {
    assert listed[..i + 1] == listed[..i] + [listed[i]];
  }

  /** What one listed asset adds. */
  lemma LinkNext(g: Graph, x: Id, peers: set<Id>, listed: seq<Id>, i: nat)
    requires i < |listed| && NoRepeats(listed)
    ensures var before, peer := LinkAll(g, x, Among(peers, listed[..i])), listed[i];
            LinkAll(g, x, Among(peers, listed[..i + 1])) ==
              if peer in peers then UpsertReachability(UpsertReachability(before, x, peer, 0, "ip"), peer, x, 0, "ip")
              else before
    ensures |Among(peers, listed[..i + 1])| == |Among(peers, listed[..i])| + if listed[i] in peers then 1 else 0
  {
    AmongNext(peers, listed, i);
    var before, after := Among(peers, listed[..i]), Among(peers, listed[..i + 1]);
    if listed[i] in peers {
      LinkOne(g, x, before, listed[i]);
      assert after == before + {listed[i]} && |after| == |before| + 1;
    } else {
      assert after == before;
    }
  }

  /** Walks the registered assets in listing order, linking both ways with each peer, and
      counts the peers, projected or not. */
  method DeriveSubnetReachability(registry: Registry, listed: seq<Id>, g: Graph, x: Id) returns (g': Graph, count: nat)
    requires x in registry && registry[x].kind == IP
    requires forall y :: y in listed <==> y in registry
    requires NoRepeats(listed)
    ensures g' == Linked(registry, g, x)
    ensures count == |PeerSet(registry, x)|
  {
    g', count := g, 0;
    LinkNone(g, x);
    var net := PrivateSubnet24(registry[x].address);
    if net == None {
      assert PeerSet(registry, x) == {};
      return;
    }
    ghost var peers := PeerSet(registry, x);
    for i := 0 to |listed|
      invariant count == |Among(peers, listed[..i])| && g' == LinkAll(g, x, Among(peers, listed[..i]))
    {
      var peer := listed[i];
      LinkNext(g, x, peers, listed, i);
      assert peer in peers <==> Peers(registry, x, peer);
      if peer == x || registry[peer].kind != IP {
        continue;
      }
      if PrivateSubnet24(registry[peer].address) != net {
        continue;
      }
      g' := UpsertReachability(g', x, peer, 0, "ip");
      g' := UpsertReachability(g', peer, x, 0, "ip");
      count := count + 1;
    }
    assert listed[..|listed|] == listed;
    assert Among(peers, listed) == peers;
  }

  // ---------- the single writes of a derivation ----------

  /** The peers in listing order. */
  function ListedPeers(registry: Registry, listed: seq<Id>, x: Id): seq<Id> {
    if listed == [] then [] else
    var n := |listed| - 1;
    ListedPeers(registry, listed[..n], x) + if Peers(registry, x, listed[n]) then [listed[n]] else []
  }

  lemma {:induction false} ListedPeersExact(registry: Registry, listed: seq<Id>, x: Id)
    ensures forall y :: y in ListedPeers(registry, listed, x) <==> y in listed && Peers(registry, x, y)
  {
    if listed == [] {
    } else {
      ListedPeersExact(registry, listed[..|listed| - 1], x);
      assert listed == listed[..|listed| - 1] + [listed[|listed| - 1]];
    }
  }

  // ---------- many workers ----------

  /** A derivation for `id` under way. It still has to link `peers`, and stands between
      the two writes for the first of them when `half`. `known` are the assets projected
      when it took its listing; `clean` says that its own asset was one of them and that no
      write has failed since. */
  datatype Work = Work(id: Id, peers: seq<Id>, half: bool, known: set<Id>, clean: bool)

  /** A derivation that went through, and the assets projected when it took its listing. */
  datatype Scan = Scan(id: Id, known: set<Id>)

  datatype State = State(registry: Registry, g: Graph, works: map<nat, Work>, finished: set<Scan>)

  /** Projecting is a write of its own; a derivation reads the listing once and then
      issues two separate writes for every peer. Any of them may fail without effect, and a
      worker may crash anywhere. */
  datatype Action =
    | Register(id: Id, asset: Asset)
    | Project(id: Id)
    | Begin(worker: nat, id: Id, listed: seq<Id>)
    | Write(worker: nat, ok: bool)
    | Finish(worker: nat)
    | Crash(worker: nat)

  const INITIAL := State(map[], EMPTY_GRAPH, map[], {})

  ghost predicate Enabled(s: State, a: Action) {
    match a
    case Register(id, _) => id !in s.registry
    case Project(id) => id in s.registry
    case Begin(w, id, listed) =>
      && w !in s.works && id in s.registry && s.registry[id].kind == IP
      && NoRepeats(listed) && forall y :: y in listed <==> y in s.registry
    case Write(w, _) => w in s.works && s.works[w].peers != []
    case Finish(w) => w in s.works && s.works[w].peers == []
    case Crash(w) => w in s.works
  }

  /** The relationship a derivation writes next. */
  function Target(work: Work): (Id, Id)
    requires work.peers != []
  {
    if work.half then (work.peers[0], work.id) else (work.id, work.peers[0])
  }

  function Advanced(work: Work, ok: bool): Work
    requires work.peers != []
  {
    Work(work.id, if work.half then work.peers[1..] else work.peers, !work.half, work.known, work.clean && ok)
  }

  function Next(s: State, a: Action): State
    requires Enabled(s, a)
  {
    match a
    case Register(id, asset) => s.(registry := s.registry[id := asset])
    case Project(id) =>
      var x := s.registry[id];
      s.(g := SyncAsset(s.g, id, x.name, x.target, x.criticality, x.tags))
    case Begin(w, id, listed) =>
      var known := set y | y in s.g.assets;
      s.(works := s.works[w := Work(id, ListedPeers(s.registry, listed, id), false, known, id in known)])
    case Write(w, ok) =>
      var e := Target(s.works[w]);
      s.(g := if ok then UpsertReachability(s.g, e.0, e.1, 0, "ip") else s.g,
         works := s.works[w := Advanced(s.works[w], ok)])
    case Finish(w) =>
      var work := s.works[w];
      s.(works := s.works - {w}, finished := s.finished + if work.clean then {Scan(work.id, work.known)} else {})
    case Crash(w) => s.(works := s.works - {w})
  }

  ghost predicate IsRun(states: seq<State>, actions: seq<Action>) {
    && |states| == |actions| + 1 && states[0] == INITIAL
    && forall i :: 0 <= i < |actions| ==> Enabled(states[i], actions[i]) && states[i + 1] == Next(states[i], actions[i])
  }

  /** What a worker does when nobody else interferes: both writes, peer after peer. */
  ghost function WriteOut(s: State, w: nat): State
    requires w in s.works && !s.works[w].half
    decreases |s.works[w].peers|
  {
    if s.works[w].peers == [] then s
    else WriteOut(Next(Next(s, Write(w, true)), Write(w, true)), w)
  }

  lemma LinksUnion(g: Graph, x: Id, p: set<Id>, q: set<Id>)
    ensures Links(g, x, p + q) == Links(g, x, p) + Links(g, x, q)
  {
  }

  lemma AddLinksTwice(reach: map<(Id, Id), Link>, a: set<(Id, Id)>, b: set<(Id, Id)>)
    ensures AddLinks(AddLinks(reach, a), b) == AddLinks(reach, a + b)
  {
  }

  lemma LinkTwice(g: Graph, x: Id, p: set<Id>, q: set<Id>)
    ensures LinkAll(LinkAll(g, x, p), x, q) == LinkAll(g, x, p + q)
  {
    LinksUnion(g, x, p, q);
    AddLinksTwice(g.reach, Links(g, x, p), Links(g, x, q));
    assert Links(LinkAll(g, x, p), x, q) == Links(g, x, q);
  }

  lemma PairIsLink(s: State, w: nat)
    requires w in s.works && !s.works[w].half && s.works[w].peers != []
    ensures var work, s' := s.works[w], Next(Next(s, Write(w, true)), Write(w, true));
            && s'.g == LinkAll(s.g, work.id, {work.peers[0]})
            && s'.works[w] == work.(peers := work.peers[1..])
  {
    var work := s.works[w];
    LinkNone(s.g, work.id);
    LinkOne(s.g, work.id, {}, work.peers[0]);
    assert {} + {work.peers[0]} == {work.peers[0]};
  }

  /** An uninterrupted derivation links its asset with all of its peers at once. */
  lemma {:induction false} UninterruptedIsLinkAll(s: State, w: nat)
    requires w in s.works && !s.works[w].half
    ensures WriteOut(s, w).g == LinkAll(s.g, s.works[w].id, set y | y in s.works[w].peers)
    decreases |s.works[w].peers|
  {
    var work := s.works[w];
    if work.peers == [] {
      LinkNone(s.g, work.id);
      assert (set y | y in work.peers) == {};
    } else {
      PairIsLink(s, w);
      UninterruptedIsLinkAll(Next(Next(s, Write(w, true)), Write(w, true)), w);
      LinkTwice(s.g, work.id, {work.peers[0]}, set y | y in work.peers[1..]);
      assert (set y | y in work.peers) == {work.peers[0]} + set y | y in work.peers[1..];
    }
  }

  // ---------- invariant ----------

  predicate Projected(s: State, e: (Id, Id)) {
    e.0 in s.g.assets && e.1 in s.g.assets
  }

  /** The derivation has written e, or is going to. */
  predicate WrittenOrDue(g: Graph, work: Work, y: Id) {
    && ((work.id, y) in g.reach || (y in work.peers && !(work.half && y == work.peers[0])))
    && ((y, work.id) in g.reach || y in work.peers)
  }

  ghost predicate GraphInv(s: State) {
    && (forall id :: id in s.g.assets ==> id in s.registry)
    && (forall e :: e in s.g.reach ==> Peers(s.registry, e.0, e.1) && Projected(s, e))
  }

  /** What a derivation saw is still there, and it only writes to peers. */
  ghost predicate WorkInv(s: State, work: Work) {
    && (work.half ==> work.peers != [])
    && (forall y :: y in work.peers ==> Peers(s.registry, work.id, y))
    && (forall y :: y in work.known ==> y in s.g.assets)
    && (work.clean ==> work.id in work.known
                       && forall y :: y in work.known && Peers(s.registry, work.id, y) ==> WrittenOrDue(s.g, work, y))
  }

  /** A finished derivation has linked every peer it could. */
  ghost predicate ScanInv(s: State, scan: Scan) {
    && scan.id in scan.known && (forall y :: y in scan.known ==> y in s.g.assets)
    && forall y :: y in scan.known && Peers(s.registry, scan.id, y) ==>
         (scan.id, y) in s.g.reach && (y, scan.id) in s.g.reach
  }

  ghost predicate Comparable(a: set<Id>, b: set<Id>) {
    a <= b || b <= a
  }

  /** Of two listings one saw all the other saw. */
  ghost predicate ListingsInv(s: State) {
    && (forall w, v :: w in s.works && v in s.works ==> Comparable(s.works[w].known, s.works[v].known))
    && (forall w, scan :: w in s.works && scan in s.finished ==> Comparable(s.works[w].known, scan.known))
    && (forall scan, scan' :: scan in s.finished && scan' in s.finished ==> Comparable(scan.known, scan'.known))
  }

  ghost predicate Inv(s: State) {
    && GraphInv(s)
    && (forall w :: w in s.works ==> WorkInv(s, s.works[w]))
    && (forall scan :: scan in s.finished ==> ScanInv(s, scan))
    && ListingsInv(s)
  }

  /** Growth of registry and graph keeps what derivations rely on. */
  ghost predicate Grown(s: State, s': State) {
    && (forall id :: id in s.registry ==> id in s'.registry && s'.registry[id] == s.registry[id])
    && (forall id :: id in s.g.assets ==> id in s'.g.assets)
    && (forall e :: e in s.g.reach ==> e in s'.g.reach)
  }

  lemma WorkSurvives(s: State, s': State, work: Work)
    requires GraphInv(s) && Grown(s, s') && WorkInv(s, work)
    ensures WorkInv(s', work)
  {
  }

  lemma ScanSurvives(s: State, s': State, scan: Scan)
    requires GraphInv(s) && Grown(s, s') && ScanInv(s, scan)
    ensures ScanInv(s', scan)
  {
  }

  lemma StepGrows(s: State, a: Action)
    requires GraphInv(s) && Enabled(s, a)
    ensures Grown(s, Next(s, a))
  {
  }

  lemma StepKeepsGraph(s: State, a: Action)
    requires Inv(s) && Enabled(s, a)
    ensures GraphInv(Next(s, a))
  {
    if a.Write? {
      var work := s.works[a.worker];
      assert WorkInv(s, work) && work.peers[0] in work.peers;
    }
  }

  lemma AdvancedKeepsWork(s: State, w: nat, ok: bool)
    requires Inv(s) && Enabled(s, Write(w, ok))
    ensures WorkInv(Next(s, Write(w, ok)), Advanced(s.works[w], ok))
  {
    var work, s' := s.works[w], Next(s, Write(w, ok));
    var next := Advanced(work, ok);
    assert WorkInv(s, work);
    assert forall y :: y in work.peers <==> y == work.peers[0] || y in work.peers[1..];
    forall y | next.clean && y in next.known && Peers(s'.registry, next.id, y) ensures WrittenOrDue(s'.g, next, y) {
      assert WrittenOrDue(s.g, work, y);
    }
  }

  lemma BegunIsGood(s: State, w: nat, id: Id, listed: seq<Id>)
    requires Inv(s) && Enabled(s, Begin(w, id, listed))
    ensures WorkInv(Next(s, Begin(w, id, listed)), Next(s, Begin(w, id, listed)).works[w])
  {
    ListedPeersExact(s.registry, listed, id);
  }

  lemma FinishedIsGood(s: State, w: nat)
    requires Inv(s) && Enabled(s, Finish(w)) && s.works[w].clean
    ensures ScanInv(s, Scan(s.works[w].id, s.works[w].known))
  {
    var work := s.works[w];
    assert WorkInv(s, work);
    forall y | y in work.known && Peers(s.registry, work.id, y)
      ensures (work.id, y) in s.g.reach && (y, work.id) in s.g.reach
    {
      assert WrittenOrDue(s.g, work, y);
    }
  }

  /** Whatever was listed is projected, so a new listing sees at least as much. */
  lemma NewListingSeesAll(s: State)
    requires Inv(s)
    ensures var known := set y | y in s.g.assets;
            && (forall w :: w in s.works ==> s.works[w].known <= known)
            && (forall scan :: scan in s.finished ==> scan.known <= known)
  {
    forall w | w in s.works ensures forall y :: y in s.works[w].known ==> y in s.g.assets {
      assert WorkInv(s, s.works[w]);
    }
    forall scan | scan in s.finished ensures forall y :: y in scan.known ==> y in s.g.assets {
      assert ScanInv(s, scan);
    }
  }

  lemma StepKeepsListings(s: State, a: Action)
    requires Inv(s) && Enabled(s, a)
    ensures ListingsInv(Next(s, a))
  {
    if a.Begin? {
      NewListingSeesAll(s);
    }
  }

  lemma StepKeepsWorks(s: State, a: Action, w: nat)
    requires Inv(s) && Enabled(s, a) && w in Next(s, a).works
    ensures WorkInv(Next(s, a), Next(s, a).works[w])
  {
    if a.Write? && a.worker == w {
      AdvancedKeepsWork(s, w, a.ok);
    } else if a.Begin? && a.worker == w {
      BegunIsGood(s, w, a.id, a.listed);
    } else {
      StepGrows(s, a);
      WorkSurvives(s, Next(s, a), s.works[w]);
    }
  }

  lemma StepKeepsScans(s: State, a: Action, scan: Scan)
    requires Inv(s) && Enabled(s, a) && scan in Next(s, a).finished
    ensures ScanInv(Next(s, a), scan)
  {
    StepGrows(s, a);
    if scan !in s.finished {
      FinishedIsGood(s, a.worker);
    }
    ScanSurvives(s, Next(s, a), scan);
  }

  lemma NextKeepsInv(s: State, a: Action)
    requires Inv(s) && Enabled(s, a)
    ensures Inv(Next(s, a))
  {
    StepKeepsGraph(s, a);
    StepKeepsListings(s, a);
    forall w | w in Next(s, a).works ensures WorkInv(Next(s, a), Next(s, a).works[w]) {
      StepKeepsWorks(s, a, w);
    }
    forall scan | scan in Next(s, a).finished ensures ScanInv(Next(s, a), scan) {
      StepKeepsScans(s, a, scan);
    }
  }

  lemma {:induction false} RunKeepsInv(states: seq<State>, actions: seq<Action>, i: nat)
    requires IsRun(states, actions) && i < |states|
    ensures Inv(states[i])
  {
    if i == 0 {
    } else {
      RunKeepsInv(states, actions, i - 1);
      NextKeepsInv(states[i - 1], actions[i - 1]);
    }
  }

  // ---------- confluence ----------

  ghost predicate Scanned(s: State, id: Id) {
    exists scan :: scan in s.finished && scan.id == id
  }

  /** Between two scanned peers both directions exist. */
  lemma ScannedPairIsLinked(s: State, x: Id, y: Id)
    requires Inv(s) && Peers(s.registry, x, y) && Scanned(s, x) && Scanned(s, y)
    ensures (x, y) in s.g.reach && (y, x) in s.g.reach
  {
    var a :| a in s.finished && a.id == x;
    var b :| b in s.finished && b.id == y;
    assert ScanInv(s, a) && ScanInv(s, b) && Comparable(a.known, b.known);
  }

  /** Under every interleaving of single writes, with failures and crashes, reachability
      stays within the peer relation. Once a derivation for every IP asset has gone
      through, in any order, with any repeats and however interleaved, it is the whole of
      it: of two listings the later one saw both assets. */
  lemma ReachabilityConfluence(states: seq<State>, actions: seq<Action>, i: nat, x: Id, y: Id)
    requires IsRun(states, actions) && i < |states|
    ensures (x, y) in states[i].g.reach ==> Peers(states[i].registry, x, y)
    ensures (forall id :: id in states[i].registry && states[i].registry[id].kind == IP ==> Scanned(states[i], id)) ==>
              ((x, y) in states[i].g.reach <==> Peers(states[i].registry, x, y))
  {
    var s := states[i];
    RunKeepsInv(states, actions, i);
    if Peers(s.registry, x, y) && Scanned(s, x) && Scanned(s, y) {
      ScannedPairIsLinked(s, x, y);
    }
  }
}
