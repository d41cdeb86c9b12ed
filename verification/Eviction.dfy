/** Whole runs of the limiter: eviction and other clients never change a decision. */
module Eviction {
  import opened TokenBucket
  import opened RateLimiter

  datatype Call = Call(ip: string, t: real)

  const FRESH := State(map[], map[])

  function Run(rate: real, evict: bool, calls: seq<Call>): State {
    if calls == [] then FRESH else
    var n := |calls| - 1;
    Allow(rate, evict, Run(rate, evict, calls[..n]), calls[n].ip, calls[n].t)
  }

  /** Whether the last call of the run is admitted. */
  predicate Decision(rate: real, evict: bool, calls: seq<Call>)
    requires calls != []
  {
    var n := |calls| - 1;
    Found(rate, Run(rate, evict, calls[..n]), calls[n].ip, calls[n].t).tokens >= 1.0
  }

  /** When one client called. */
  function TimesOf(calls: seq<Call>, ip: string): seq<real> {
    if calls == [] then [] else
    var n := |calls| - 1;
    TimesOf(calls[..n], ip) + if calls[n].ip == ip then [calls[n].t] else []
  }

  /** No call carries a time more than d before that of an earlier call. */
  ghost predicate Disorder(calls: seq<Call>, d: real) {
    forall i, j :: 0 <= i < j < |calls| ==> calls[j].t >= calls[i].t - d
  }

  // ---------- one client's view of a run ----------

  /** The client has been idle long enough, seen from a time some call carried. */
  ghost predicate Cold(calls: seq<Call>, last: real, d: real) {
    exists i :: 0 <= i < |calls| && calls[i].t - last > IDLE - d
  }

  /** A client with a bucket has the bucket its own calls alone would leave; a client
      whose bucket was dropped is cold. */
  ghost predicate Tracks(rate: real, s: State, calls: seq<Call>, ip: string, d: real) {
    var times := TimesOf(calls, ip);
    && (ip in s.lastSeen <==> ip in s.buckets)
    && (ip in s.buckets ==>
          times != [] && s.buckets[ip] == Take(Level(rate, times)) && s.lastSeen[ip] == times[|times| - 1])
    && (ip !in s.buckets && times != [] ==> Cold(calls, Clock(times), d))
  }

  lemma {:induction false} TimesFromCalls(calls: seq<Call>, ip: string, x: real)
    requires x in TimesOf(calls, ip)
    ensures exists i :: 0 <= i < |calls| && calls[i].t == x
  {
    var n := |calls| - 1;
    if calls[n].ip == ip && x == calls[n].t {
    } else {
      TimesFromCalls(calls[..n], ip, x);
      var i :| 0 <= i < n && calls[..n][i].t == x;
      assert calls[i].t == x;
    }
  }

  lemma {:induction false} ClockIsATime(times: seq<real>)
    requires times != []
    ensures Clock(times) in times
  {
    var n := |times| - 1;
    if n > 0 && !(times[n] > Clock(times[..n])) {
      ClockIsATime(times[..n]);
      assert times == times[..n] + [times[n]];
    }
  }

  /** A client's latest call is at most d behind its own clock. */
  lemma {:induction false} LastNearClock(calls: seq<Call>, ip: string, d: real)
    requires d >= 0.0 && Disorder(calls, d) && TimesOf(calls, ip) != []
    ensures var times := TimesOf(calls, ip); times[|times| - 1] >= Clock(times) - d
  {
    var n := |calls| - 1;
    var before := TimesOf(calls[..n], ip);
    if calls[n].ip != ip {
      assert TimesOf(calls, ip) == before;
      LastNearClock(calls[..n], ip, d);
    } else if before != [] {
      ClockIsATime(before);
      TimesFromCalls(calls[..n], ip, Clock(before));
      var i :| 0 <= i < n && calls[..n][i].t == Clock(before);
      assert calls[n].t >= calls[i].t - d;
      assert TimesOf(calls, ip)[..|before|] == before;
    }
  }

  /** An idle bucket is full again by the time its client returns. */
  lemma IdleIsFull(rate: real, times: seq<real>, t: real)
    requires rate > 0.0 && times != [] && t - Clock(times) >= 2.0
    ensures Level(rate, times + [t]) == Bucket(Burst(rate), t)
  {
    LevelBasics(rate, times);
    assert (times + [t])[..|times|] == times;
    var span := t - Clock(times);
    EarnedPositive(rate, span - 2.0);
    EarnedSum(rate, 2.0, span - 2.0);
  }

  /** The bucket a call finds is the one its client's own calls account for. */
  lemma FoundIsLevel(rate: real, s: State, calls: seq<Call>, call: Call, d: real)
    requires rate > 0.0 && d <= 299.0 && Disorder(calls + [call], d) && Tracks(rate, s, calls, call.ip, d)
    ensures Found(rate, s, call.ip, call.t) == Level(rate, TimesOf(calls, call.ip) + [call.t])
  {
    var times := TimesOf(calls, call.ip);
    assert (times + [call.t])[..|times|] == times;
    if call.ip !in s.buckets && times != [] {
      var i :| 0 <= i < |calls| && calls[i].t - Clock(times) > IDLE - d;
      assert (calls + [call])[i] == calls[i] && (calls + [call])[|calls|] == call;
      IdleIsFull(rate, times, call.t);
    }
  }

  lemma AllowTracksCaller(rate: real, evict: bool, s: State, calls: seq<Call>, call: Call, d: real)
    requires rate > 0.0 && d <= 299.0 && Disorder(calls + [call], d) && Tracks(rate, s, calls, call.ip, d)
    ensures Tracks(rate, Allow(rate, evict, s, call.ip, call.t), calls + [call], call.ip, d)
  {
    FoundIsLevel(rate, s, calls, call, d);
    assert (calls + [call])[..|calls|] == calls;
  }

  lemma AllowTracksOther(rate: real, evict: bool, s: State, calls: seq<Call>, call: Call, ip: string, d: real)
    requires rate > 0.0 && 0.0 <= d && Disorder(calls + [call], d) && Tracks(rate, s, calls, ip, d) && ip != call.ip
    ensures Tracks(rate, Allow(rate, evict, s, call.ip, call.t), calls + [call], ip, d)
  {
    var all := calls + [call];
    assert all[..|calls|] == calls && all[|calls|] == call;
    var times := TimesOf(calls, ip);
    assert TimesOf(all, ip) == times;
    if ip in s.buckets && evict && call.t - s.lastSeen[ip] > IDLE {
      assert Disorder(calls, d) by { assert forall i :: 0 <= i < |calls| ==> all[i] == calls[i]; }
      LastNearClock(calls, ip, d);
      assert all[|calls|].t - Clock(times) > IDLE - d;
    } else if ip !in s.buckets && times != [] {
      var i :| 0 <= i < |calls| && calls[i].t - Clock(times) > IDLE - d;
      assert all[i].t - Clock(times) > IDLE - d;
    }
  }

  lemma {:induction false} RunTracks(rate: real, evict: bool, calls: seq<Call>, ip: string, d: real)
    requires rate > 0.0 && 0.0 <= d <= 299.0 && Disorder(calls, d)
    ensures Tracks(rate, Run(rate, evict, calls), calls, ip, d)
  {
    if calls == [] {
    } else {
      var n := |calls| - 1;
      assert calls == calls[..n] + [calls[n]];
      RunTracks(rate, evict, calls[..n], ip, d);
      if calls[n].ip == ip {
        AllowTracksCaller(rate, evict, Run(rate, evict, calls[..n]), calls[..n], calls[n], d);
      } else {
        AllowTracksOther(rate, evict, Run(rate, evict, calls[..n]), calls[..n], calls[n], ip, d);
      }
    }
  }

  lemma DisorderPrefix(calls: seq<Call>, n: nat, d: real)
    requires Disorder(calls, d) && n <= |calls|
    ensures Disorder(calls[..n], d)
  {
    assert forall i :: 0 <= i < n ==> calls[..n][i] == calls[i];
  }

  lemma FoundByLast(rate: real, evict: bool, calls: seq<Call>, d: real)
    requires rate > 0.0 && 0.0 <= d <= 299.0 && Disorder(calls, d) && calls != []
    ensures var n := |calls| - 1;
            Found(rate, Run(rate, evict, calls[..n]), calls[n].ip, calls[n].t)
              == Level(rate, TimesOf(calls[..n], calls[n].ip) + [calls[n].t])
  {
    var n := |calls| - 1;
    var before, call := calls[..n], calls[n];
    assert calls == before + [call];
    DisorderPrefix(calls, n, d);
    RunTracks(rate, evict, before, call.ip, d);
    FoundIsLevel(rate, Run(rate, evict, before), before, call, d);
  }

  /** Every decision of every run, with or without eviction and whatever other clients
      do, is the decision the client's own call times call for. */
  lemma DecisionIsTheClientsOwn(rate: real, evict: bool, calls: seq<Call>, d: real)
    requires rate > 0.0 && 0.0 <= d <= 299.0 && Disorder(calls, d) && calls != []
    ensures TimesOf(calls, calls[|calls| - 1].ip) != []
    ensures Decision(rate, evict, calls) <==> Admitted(rate, TimesOf(calls, calls[|calls| - 1].ip))
  {
    var n := |calls| - 1;
    FoundByLast(rate, evict, calls, d);
    assert TimesOf(calls, calls[n].ip) == TimesOf(calls[..n], calls[n].ip) + [calls[n].t];
  }

  /** A limiter that drops idle clients decides like one that never does. */
  lemma EvictionUnobservable(rate: real, calls: seq<Call>, d: real)
    requires rate > 0.0 && 0.0 <= d <= 299.0 && Disorder(calls, d) && calls != []
    ensures Decision(rate, true, calls) <==> Decision(rate, false, calls)
  {
    DecisionIsTheClientsOwn(rate, true, calls, d);
    DecisionIsTheClientsOwn(rate, false, calls, d);
  }

  // ---------- how much disorder eviction tolerates ----------

  /** Two clients, rate one per second. The first spends its burst, calls again with an
      old time, is dropped when the second client calls, and then returns with a time as
      old as the disorder allows. */
  function LateReturn(d: real, e: real): seq<Call> {
    [Call("a", d), Call("a", d), Call("a", 0.0), Call("b", IDLE + e), Call("a", IDLE + e - d), Call("a", IDLE + e - d)]
  }

  lemma LateReturnDisorder(d: real, e: real)
    requires 299.0 < d <= 300.0 && e == d - 299.0
    ensures Disorder(LateReturn(d, e), d)
  {
  }

  /** A sequence of states that follows the calls is the run. */
  lemma {:induction false} RunsThrough(rate: real, evict: bool, c: seq<Call>, s: seq<State>, k: nat)
    requires k < |s| <= |c| && s[0] == FRESH
    requires forall i :: 0 < i < |s| ==> s[i] == Allow(rate, evict, s[i - 1], c[i - 1].ip, c[i - 1].t)
    ensures Run(rate, evict, c[..k]) == s[k]
  {
    if k == 0 {
    } else {
      RunsThrough(rate, evict, c, s, k - 1);
      assert c[..k][..k - 1] == c[..k - 1];
    }
  }

  lemma LateReturnForever(d: real, e: real)
    requires 299.0 < d <= 300.0 && e == d - 299.0
    ensures !Decision(1.0, false, LateReturn(d, e))
  {
    var c := LateReturn(d, e);
    var s1 := Allow(1.0, false, FRESH, "a", d);
    var s2 := Allow(1.0, false, s1, "a", d);
    var s3 := Allow(1.0, false, s2, "a", 0.0);
    var s4 := Allow(1.0, false, s3, "b", IDLE + e);
    var s5 := Allow(1.0, false, s4, "a", IDLE + e - d);
    assert s1.buckets["a"] == Bucket(1.0, d);
    assert s2.buckets["a"] == Bucket(0.0, d);
    assert s3.buckets["a"] == Bucket(0.0, d);
    assert s4.buckets["a"] == Bucket(0.0, d);
    assert s5.buckets["a"].tokens < 1.0 && s5.buckets["a"].last == IDLE + e - d;
    RunsThrough(1.0, false, c, [FRESH, s1, s2, s3, s4, s5], 5);
  }

  /** The state after the first three calls, and after the fourth has dropped client a. */
  function Spent(d: real): State {
    State(map["a" := Bucket(0.0, d)], map["a" := 0.0])
  }

  function Dropped(t: real): State {
    State(map["b" := Bucket(1.0, t)], map["b" := t])
  }

  lemma SpendBurst(d: real)
    ensures Allow(1.0, true, Allow(1.0, true, FRESH, "a", d), "a", d).buckets == map["a" := Bucket(0.0, d)]
    ensures Allow(1.0, true, Allow(1.0, true, FRESH, "a", d), "a", d).lastSeen == map["a" := d]
  {
    assert Allow(1.0, true, FRESH, "a", d).buckets == map["a" := Bucket(1.0, d)];
    assert Allow(1.0, true, FRESH, "a", d).lastSeen == map["a" := d];
  }

  lemma CallLate(s: State, d: real)
    requires d > 0.0 && s.buckets == map["a" := Bucket(0.0, d)] && s.lastSeen == map["a" := d]
    ensures Allow(1.0, true, s, "a", 0.0) == Spent(d)
  {
    assert Allow(1.0, true, s, "a", 0.0).buckets == Spent(d).buckets;
    assert Allow(1.0, true, s, "a", 0.0).lastSeen == Spent(d).lastSeen;
  }

  lemma DropByOther(d: real, t: real)
    requires t > IDLE
    ensures Allow(1.0, true, Spent(d), "b", t) == Dropped(t)
  {
    assert Allow(1.0, true, Spent(d), "b", t).buckets == Dropped(t).buckets;
    assert Allow(1.0, true, Spent(d), "b", t).lastSeen == Dropped(t).lastSeen;
  }

  lemma StartAgain(t: real, t': real)
    ensures var s := Allow(1.0, true, Dropped(t), "a", t'); "a" in s.buckets && s.buckets["a"] == Bucket(1.0, t')
  {
  }

  lemma LateReturnEvicted(d: real, e: real)
    requires 299.0 < d <= 300.0 && e == d - 299.0
    ensures Decision(1.0, true, LateReturn(d, e))
  {
    var c := LateReturn(d, e);
    var s1 := Allow(1.0, true, FRESH, "a", d);
    var s2 := Allow(1.0, true, s1, "a", d);
    var s5 := Allow(1.0, true, Dropped(IDLE + e), "a", IDLE + e - d);
    SpendBurst(d);
    CallLate(s2, d);
    DropByOther(d, IDLE + e);
    RunsThrough(1.0, true, c, [FRESH, s1, s2, Spent(d), Dropped(IDLE + e), s5], 5);
    StartAgain(IDLE + e, IDLE + e - d);
  }

  /** Call times are read before the lock is taken, so they may arrive out of order.
      Eviction stays unobservable exactly while no time is more than 299 seconds behind
      an earlier one: ten minutes, less twice the disorder, must cover the two seconds
      a bucket takes to fill. */
  lemma EvictionToleratesDisorderIff(d: real)
    requires d >= 0.0
    ensures (forall rate, calls :: rate > 0.0 && calls != [] && Disorder(calls, d) ==>
               (Decision(rate, true, calls) <==> Decision(rate, false, calls)))
            <==> d <= 299.0
  {
    if d <= 299.0 {
      forall rate, calls | rate > 0.0 && calls != [] && Disorder(calls, d)
        ensures Decision(rate, true, calls) <==> Decision(rate, false, calls)
      {
        EvictionUnobservable(rate, calls, d);
      }
    } else {
      var d' := if d < 300.0 then d else 300.0;
      var c := LateReturn(d', d' - 299.0);
      LateReturnDisorder(d', d' - 299.0);
      LateReturnForever(d', d' - 299.0);
      LateReturnEvicted(d', d' - 299.0);
      assert Disorder(c, d);
    }
  }

  // ---------- the admission bound of a run ----------

  /** Admitted calls of one client among calls m up to, not including, n. */
  function AdmittedCalls(rate: real, evict: bool, calls: seq<Call>, ip: string, m: nat, n: nat): nat
    requires m <= n <= |calls|
  {
    if m == n then 0 else
    AdmittedCalls(rate, evict, calls, ip, m, n - 1)
      + if calls[n - 1].ip == ip && Decision(rate, evict, calls[..n]) then 1 else 0
  }

  lemma {:induction false} CountPrefixes(rate: real, s: seq<real>, t: seq<real>, i: nat, j: nat)
    requires i <= j <= |s| && s <= t
    ensures Count(rate, s, i, j) == Count(rate, t, i, j)
  {
    if i == j {
    } else {
      CountPrefixes(rate, s, t, i, j - 1);
      assert s[..j] == t[..j];
    }
  }

  lemma {:induction false} TimesPrefix(calls: seq<Call>, ip: string, m: nat)
    requires m <= |calls|
    ensures TimesOf(calls[..m], ip) <= TimesOf(calls, ip)
  {
    var n := |calls| - 1;
    if m == |calls| {
      assert calls[..m] == calls;
    } else {
      TimesPrefix(calls[..n], ip, m);
      assert calls[..n][..m] == calls[..m];
    }
  }

  /** The last call adds to its own client's times, and is counted as decided. */
  lemma LastCall(rate: real, evict: bool, calls: seq<Call>, ip: string, d: real)
    requires rate > 0.0 && 0.0 <= d <= 299.0 && Disorder(calls, d) && calls != []
    ensures var before, times := TimesOf(calls[..|calls| - 1], ip), TimesOf(calls, ip);
            if calls[|calls| - 1].ip == ip
            then |times| == |before| + 1 && before <= times && (Decision(rate, evict, calls) <==> Admitted(rate, times))
            else times == before
  {
    DecisionIsTheClientsOwn(rate, evict, calls, d);
  }

  /** Call number n - 1 adds a time exactly if it is the client's, and is counted exactly if
      that time is admitted. */
  lemma CallCounted(rate: real, evict: bool, calls: seq<Call>, ip: string, n: nat, d: real)
    requires rate > 0.0 && 0.0 <= d <= 299.0 && Disorder(calls, d) && 0 < n <= |calls|
    ensures var before, times := TimesOf(calls[..n - 1], ip), TimesOf(calls[..n], ip);
            && |before| <= |times| <= |before| + 1 && before <= times
            && (calls[n - 1].ip == ip <==> |times| > |before|)
            && (calls[n - 1].ip == ip ==> (Decision(rate, evict, calls[..n]) <==> Admitted(rate, times)))
  {
    DisorderPrefix(calls, n, d);
    assert calls[..n][..n - 1] == calls[..n - 1] && calls[..n][n - 1] == calls[n - 1];
    LastCall(rate, evict, calls[..n], ip, d);
  }

  lemma CountLast(rate: real, before: seq<real>, times: seq<real>, i: nat)
    requires i <= |before| <= |times| <= |before| + 1 && before <= times
    ensures Count(rate, times, i, |times|) ==
              Count(rate, before, i, |before|) + if |times| > |before| && Admitted(rate, times) then 1 else 0
  {
    CountPrefixes(rate, before, times, i, |before|);
    assert times[..|times|] == times;
  }

  /** Counting decisions of the run is counting on the client's own times. */
  lemma {:induction false} CountsAgree(rate: real, evict: bool, calls: seq<Call>, ip: string, m: nat, n: nat, d: real)
    requires rate > 0.0 && 0.0 <= d <= 299.0 && Disorder(calls, d) && m <= n <= |calls|
    ensures |TimesOf(calls[..m], ip)| <= |TimesOf(calls[..n], ip)|
    ensures AdmittedCalls(rate, evict, calls, ip, m, n) ==
              Count(rate, TimesOf(calls[..n], ip), |TimesOf(calls[..m], ip)|, |TimesOf(calls[..n], ip)|)
  {
    if m == n {
    } else {
      CountsAgree(rate, evict, calls, ip, m, n - 1, d);
      CallCounted(rate, evict, calls, ip, n, d);
      CountLast(rate, TimesOf(calls[..n - 1], ip), TimesOf(calls[..n], ip), |TimesOf(calls[..m], ip)|);
    }
  }

  lemma {:induction false} NextTime(calls: seq<Call>, ip: string, m: nat, n: nat)
    requires Disorder(calls, 0.0) && m < n <= |calls|
    requires |TimesOf(calls[..m], ip)| < |TimesOf(calls[..n], ip)|
    ensures TimesOf(calls[..n], ip)[|TimesOf(calls[..m], ip)|] >= calls[m].t
  {
    assert calls[..n][..n - 1] == calls[..n - 1];
    if |TimesOf(calls[..m], ip)| < |TimesOf(calls[..n - 1], ip)| {
      NextTime(calls, ip, m, n - 1);
    } else {
      TimesPrefix(calls[..n - 1], ip, m);
      assert calls[..n - 1][..m] == calls[..m];
    }
  }

  /** A client's clock stays within the interval its calls fall in. */
  lemma ClockWithin(calls: seq<Call>, ip: string, m: nat, n: nat)
    requires Disorder(calls, 0.0) && m < n <= |calls|
    requires |TimesOf(calls[..m], ip)| < |TimesOf(calls[..n], ip)|
    ensures var times := TimesOf(calls[..n], ip); var i := |TimesOf(calls[..m], ip)|;
            times[i] >= calls[m].t && Clock(times) <= calls[n - 1].t
  {
    var times := TimesOf(calls[..n], ip);
    ClockIsATime(times);
    TimesFromCalls(calls[..n], ip, Clock(times));
    NextTime(calls, ip, m, n);
  }

  lemma BoundInTokens(rate: real, evict: bool, calls: seq<Call>, ip: string, m: nat, n: nat)
    requires rate > 0.0 && Disorder(calls, 0.0) && m < n <= |calls|
    ensures AdmittedCalls(rate, evict, calls, ip, m, n) as real <=
              Burst(rate) + Earned(rate, calls[n - 1].t - calls[m].t)
  {
    CountsAgree(rate, evict, calls, ip, m, n, 0.0);
    EarnedPositive(rate, calls[n - 1].t - calls[m].t);
    var i, times := |TimesOf(calls[..m], ip)|, TimesOf(calls[..n], ip);
    if i < |times| {
      WindowBound(rate, times, i);
      ClockMonotone(times, i);
      ClockWithin(calls, ip, m, n);
      var slack := (calls[n - 1].t - calls[m].t) - (Clock(times) - Clock(times[..i + 1]));
      EarnedPositive(rate, slack);
      EarnedSum(rate, Clock(times) - Clock(times[..i + 1]), slack);
    }
  }

  lemma TokensAre(rate: real, span: real)
    ensures Burst(rate) == 2.0 * rate && Earned(rate, span) == rate * span
  {
  }

  /** Over any interval of a run with non-decreasing times, evictions and other clients
      included, a client is admitted at most burst + rate * length times, where the burst is
      twice the rate. */
  lemma IntervalBound(rate: real, evict: bool, calls: seq<Call>, ip: string, m: nat, n: nat)
    requires rate > 0.0 && Disorder(calls, 0.0) && m < n <= |calls|
    ensures AdmittedCalls(rate, evict, calls, ip, m, n) as real <= 2.0 * rate + rate * (calls[n - 1].t - calls[m].t)
  {
    BoundInTokens(rate, evict, calls, ip, m, n);
    TokensAre(rate, calls[n - 1].t - calls[m].t);
  }
}
