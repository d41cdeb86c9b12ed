/** The per-client rate limiter: refill, eviction of idle clients, admission. */
module RateLimiter {
  import opened TokenBucket

  const IDLE := 600.0

  datatype State = State(buckets: map<string, Bucket>, lastSeen: map<string, real>)

  /** Drop clients last seen more than ten minutes before t. */
  function Evicted(s: State, t: real): State {
    State(map ip | ip in s.buckets && !(ip in s.lastSeen && t - s.lastSeen[ip] > IDLE) :: s.buckets[ip],
          map ip | ip in s.lastSeen && !(t - s.lastSeen[ip] > IDLE) :: s.lastSeen[ip])
  }

  function Found(rate: real, s: State, ip: string, t: real): Bucket {
    Refill(rate, if ip in s.buckets then s.buckets[ip] else Bucket(Burst(rate), t), t)
  }

  /** One request: refill, remember, evict if asked to, then pay. */
  function Allow(rate: real, evict: bool, s: State, ip: string, t: real): State {
    var b := Found(rate, s, ip, t);
    var seen := State(s.buckets[ip := b], s.lastSeen[ip := t]);
    var kept := if evict then Evicted(seen, t) else seen;
    kept.(buckets := kept.buckets[ip := Take(b)])
  }

  // ---------- the limiter as it runs ----------

  class Cell {
    var tokens: real
    var last: real

    constructor (tokens: real, last: real)
      ensures this.tokens == tokens && this.last == last
    {
      this.tokens, this.last := tokens, last;
    }

    function Value(): Bucket
      reads this
    {
      Bucket(tokens, last)
    }
  }

  predicate Idle(lastSeen: map<string, real>, ip: string, t: real) {
    ip in lastSeen && t - lastSeen[ip] > IDLE
  }

  /** Drops idle clients one by one. */
  method DropIdle(buckets: map<string, Cell>, lastSeen: map<string, real>, t: real)
    returns (buckets': map<string, Cell>, lastSeen': map<string, real>)
    ensures buckets' == map ip | ip in buckets && !Idle(lastSeen, ip, t) :: buckets[ip]
    ensures lastSeen' == map ip | ip in lastSeen && !Idle(lastSeen, ip, t) :: lastSeen[ip]
  {
    buckets', lastSeen' := buckets, lastSeen;
    var todo := lastSeen.Keys;
    while todo != {}
      invariant todo <= lastSeen.Keys
      invariant forall ip :: ip in lastSeen' <==> ip in lastSeen && (ip in todo || !Idle(lastSeen, ip, t))
      invariant forall ip :: ip in lastSeen' ==> lastSeen'[ip] == lastSeen[ip]
      invariant forall ip :: ip in buckets' <==> ip in buckets && (ip in todo || !Idle(lastSeen, ip, t))
      invariant forall ip :: ip in buckets' ==> buckets'[ip] == buckets[ip]
    {
      var ip :| ip in todo;
      if t - lastSeen'[ip] > IDLE {
        lastSeen' := lastSeen' - {ip};
        buckets' := buckets' - {ip};
      }
      todo := todo - {ip};
    }
  }

  ghost function Values(cells: map<string, Cell>): map<string, Bucket>
    reads set ip | ip in cells :: cells[ip]
  {
    map ip | ip in cells :: cells[ip].Value()
  }

  lemma ValuesKept(cells: map<string, Cell>, kept: map<string, Cell>, lastSeen: map<string, real>,
                   lastSeen': map<string, real>, t: real)
    requires kept == map ip | ip in cells && !Idle(lastSeen, ip, t) :: cells[ip]
    requires lastSeen' == map ip | ip in lastSeen && !Idle(lastSeen, ip, t) :: lastSeen[ip]
    ensures State(Values(kept), lastSeen') == Evicted(State(Values(cells), lastSeen), t)
  {
    var evicted := Evicted(State(Values(cells), lastSeen), t).buckets;
    assert forall ip :: ip in kept <==> ip in evicted;
    assert forall ip :: ip in kept ==> Values(kept)[ip] == evicted[ip];
  }

  class Limiter {
    const rate: real
    const burst: real
    var buckets: map<string, Cell>
    var lastSeen: map<string, real>

    /** No two clients share a bucket. */
    ghost predicate Valid()
      reads this
    {
      && burst == Burst(rate)
      && (forall ip, ip' :: ip in buckets && ip' in buckets && buckets[ip] == buckets[ip'] ==> ip == ip')
    }

    ghost function View(): State
      reads this, set ip | ip in buckets :: buckets[ip]
    {
      State(Values(buckets), lastSeen)
    }

    constructor (perSecond: real)
      ensures Valid() && rate == perSecond && burst == 2.0 * perSecond && View() == State(map[], map[])
    {
      rate, burst := perSecond, perSecond * 2.0;
      buckets, lastSeen := map[], map[];
    }

    /** Finds or makes the client's bucket and refills it in place. */
    method Touch(ip: string, t: real) returns (b: Cell)
      requires Valid()
      modifies this`buckets, set c | c in buckets :: buckets[c]
      ensures Valid() && ip in buckets && buckets[ip] == b
      ensures b.Value() == Found(rate, old(View()), ip, t)
      ensures Values(buckets) == old(View()).buckets[ip := b.Value()]
      ensures forall c :: c in buckets ==> fresh(buckets[c]) || (c in old(buckets) && buckets[c] == old(buckets[c]))
    {
      if ip in buckets {
        b := buckets[ip];
      } else {
        b := new Cell(burst, t);
        buckets := buckets[ip := b];
      }
      var elapsed := t - b.last;
      if elapsed > 0.0 {
        b.tokens := b.tokens + elapsed * rate;
        if b.tokens > burst {
          b.tokens := burst;
        }
        b.last := t;
      }
    }

    method Evict(t: real)
      requires Valid()
      modifies this
      ensures Valid() && View() == Evicted(old(View()), t)
      ensures forall ip :: ip in buckets <==>
                ip in old(buckets) && !(ip in old(lastSeen) && t - old(lastSeen)[ip] > 600.0)
      ensures forall ip :: ip in lastSeen <==> ip in old(lastSeen) && t - old(lastSeen)[ip] <= 600.0
      ensures forall ip :: ip in buckets ==> buckets[ip] == old(buckets[ip])
    {
      ghost var cells, seen := buckets, lastSeen;
      buckets, lastSeen := DropIdle(buckets, lastSeen, t);
      ValuesKept(cells, buckets, seen, lastSeen, t);
    }

    method AllowRequest(ip: string, t: real) returns (ok: bool)
      requires Valid()
      modifies this, set c | c in buckets :: buckets[c]
      ensures Valid() && View() == Allow(rate, true, old(View()), ip, t)
      ensures ok <==> Found(rate, old(View()), ip, t).tokens >= 1.0
    {
      var b := Touch(ip, t);
      lastSeen := lastSeen[ip := t];
      assert View() == State(old(View()).buckets[ip := b.Value()], old(View()).lastSeen[ip := t]);
      Evict(t);
      ok := Pay(ip, b);
    }

    method Pay(ip: string, b: Cell) returns (ok: bool)
      requires Valid() && ip in buckets && buckets[ip] == b
      modifies b
      ensures Valid() && ok == (old(b.tokens) >= 1.0)
      ensures View() == old(View()).(buckets := old(View()).buckets[ip := Take(old(b.Value()))])
    {
      if b.tokens < 1.0 {
        assert Values(buckets) == Values(buckets)[ip := b.Value()];
        return false;
      }
      b.tokens := b.tokens - 1.0;
      assert Values(buckets) == old(Values(buckets))[ip := b.Value()];
      return true;
    }
  }
}
