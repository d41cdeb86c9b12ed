/** The tamper-evident audit record: canonical form, hash chain and its verification. */
module AuditChain {
  import opened Prelude
  import opened Text

  const GENESIS := "GENESIS"

  /** ts counts nanoseconds. */
  datatype Entry = Entry(number: int, ts: int, actor: string, role: string, verb: string, path: string,
                         status: int, remoteIp: string, prevHash: string, hash: string)

  /** The foreign functions: timestamp formatting and hex SHA-256. */
  datatype Codec = Codec(stamp: int -> string, sha: string -> string)
  {
    /** What their documentation promises. That hashes do not collide is not assumed here
        but named, string by string, where it matters. */
    ghost predicate Sane() {
      && (forall t :: Plain(stamp(t), '|'))
      && (forall t, t' :: stamp(t) == stamp(t') ==> t == t')
      && (forall x :: |sha(x)| == 64 && Plain(sha(x), '|'))
    }
  }

  function Fields(c: Codec, prev: string, e: Entry): seq<string> {
    [prev, c.stamp(e.ts), e.actor, e.role, e.verb, e.path, Itoa(e.status), e.remoteIp]
  }

  function Canonical(c: Codec, prev: string, e: Entry): string {
    Join(Fields(c, prev, e), '|')
  }

  function Hash(c: Codec, prev: string, e: Entry): string {
    c.sha(Canonical(c, prev, e))
  }

  lemma LastFour(a: string, b: string, s: string, r: string)
    ensures Join([a, b, s, r], '|') == a + "|" + (b + "|" + (s + "|" + r))
  {
    JoinCons(a, [b, s, r], '|');
    JoinCons(b, [s, r], '|');
    JoinCons(s, [r], '|');
    JoinCons(r, [], '|');
    assert [a] + [b, s, r] == [a, b, s, r] && [b] + [s, r] == [b, s, r] && [s] + [r] == [s, r] && [r] + [] == [r];
  }

  /** The canonical text, field by field. */
  lemma CanonicalText(c: Codec, prev: string, e: Entry)
    ensures Canonical(c, prev, e) ==
              prev + "|" + (c.stamp(e.ts) + "|" + (e.actor + "|" + (e.role + "|"
                + (e.verb + "|" + (e.path + "|" + (Itoa(e.status) + "|" + e.remoteIp))))))
  {
    var last := [e.verb, e.path, Itoa(e.status), e.remoteIp];
    LastFour(e.verb, e.path, Itoa(e.status), e.remoteIp);
    JoinCons(e.role, last, '|');
    JoinCons(e.actor, [e.role] + last, '|');
    JoinCons(c.stamp(e.ts), [e.actor] + ([e.role] + last), '|');
    JoinCons(prev, [c.stamp(e.ts)] + ([e.actor] + ([e.role] + last)), '|');
    assert Fields(c, prev, e) == [prev] + ([c.stamp(e.ts)] + ([e.actor] + ([e.role] + last)));
  }

  // ---------- verification ----------

  function PrevOf(log: seq<Entry>, i: int): string
    requires 0 <= i <= |log|
  {
    if i == 0 then GENESIS else log[i - 1].hash
  }

  predicate GoodAt(c: Codec, log: seq<Entry>, i: int)
    requires 0 <= i < |log|
  {
    log[i].prevHash == PrevOf(log, i) && Hash(c, PrevOf(log, i), log[i]) == log[i].hash
  }

  predicate Intact(c: Codec, log: seq<Entry>) {
    forall i :: 0 <= i < |log| ==> GoodAt(c, log, i)
  }

  /** Accepts exactly the intact logs and otherwise names the first bad entry. */
  method VerifyChain(c: Codec, log: seq<Entry>) returns (ok: bool, brokenAt: int)
    ensures ok <==> Intact(c, log)
    ensures ok ==> brokenAt == 0
    ensures !ok ==> exists i :: && 0 <= i < |log| && !GoodAt(c, log, i) && brokenAt == log[i].number
                                && forall j :: 0 <= j < i ==> GoodAt(c, log, j)
  {
    var prev := GENESIS;
    for i := 0 to |log|
      invariant prev == PrevOf(log, i)
      invariant forall j :: 0 <= j < i ==> GoodAt(c, log, j)
    {
      var e := log[i];
      if e.prevHash != prev {
        assert !GoodAt(c, log, i);
        return false, e.number;
      }
      if Hash(c, prev, e) != e.hash {
        assert !GoodAt(c, log, i);
        return false, e.number;
      }
      prev := e.hash;
    }
    return true, 0;
  }

  // ---------- what the head hash commits to ----------

  function CanonicalAt(c: Codec, log: seq<Entry>, i: int): string
    requires 0 <= i < |log|
  {
    Canonical(c, log[i].prevHash, log[i])
  }

  /** No two different canonical records of these logs hash alike. */
  ghost predicate NoCollision(c: Codec, a: seq<Entry>, b: seq<Entry>) {
    forall i, j :: 0 <= i < |a| && 0 <= j < |b| && c.sha(CanonicalAt(c, a, i)) == c.sha(CanonicalAt(c, b, j)) ==>
      CanonicalAt(c, a, i) == CanonicalAt(c, b, j)
  }

  ghost predicate SameHistory(c: Codec, a: seq<Entry>, b: seq<Entry>) {
    && |a| == |b|
    && forall i :: 0 <= i < |a| ==> a[i].hash == b[i].hash && CanonicalAt(c, a, i) == CanonicalAt(c, b, i)
  }

  lemma PrevOfIsPlain(c: Codec, log: seq<Entry>, i: int)
    requires c.Sane() && Intact(c, log) && 0 <= i <= |log|
    ensures Plain(PrevOf(log, i), '|') && (|PrevOf(log, i)| == 64 <==> i > 0)
  {
    if i > 0 {
      assert GoodAt(c, log, i - 1);
    }
  }

  /** A canonical record determines the previous hash it was chained to. */
  lemma CanonicalPrev(c: Codec, prev: string, e: Entry, prev': string, e': Entry)
    requires Plain(prev, '|') && Plain(prev', '|') && Canonical(c, prev, e) == Canonical(c, prev', e')
    ensures prev == prev'
  {
    var rest, rest' := Join(Fields(c, prev, e)[1..], '|'), Join(Fields(c, prev', e')[1..], '|');
    SplitAtSeparator(prev, rest, '|');
    SplitAtSeparator(prev', rest', '|');
    SplitPlain(prev, '|');
    SplitPlain(prev', '|');
    assert Split(Canonical(c, prev, e), '|')[0] == prev && Split(Canonical(c, prev', e'), '|')[0] == prev';
  }

  lemma IntactPrefix(c: Codec, log: seq<Entry>, k: nat)
    requires Intact(c, log) && k <= |log|
    ensures Intact(c, log[..k])
  {
    forall i | 0 <= i < k ensures GoodAt(c, log[..k], i) {
      assert GoodAt(c, log, i);
    }
  }

  /** Equal heads of two non-empty intact logs: equal last records, equal heads before. */
  lemma HeadStep(c: Codec, a: seq<Entry>, b: seq<Entry>)
    requires c.Sane() && Intact(c, a) && Intact(c, b) && NoCollision(c, a, b) && a != [] && b != []
    requires a[|a| - 1].hash == b[|b| - 1].hash
    ensures CanonicalAt(c, a, |a| - 1) == CanonicalAt(c, b, |b| - 1)
    ensures PrevOf(a, |a| - 1) == PrevOf(b, |b| - 1)
  {
    var m, n := |a| - 1, |b| - 1;
    assert GoodAt(c, a, m) && GoodAt(c, b, n);
    assert c.sha(CanonicalAt(c, a, m)) == c.sha(CanonicalAt(c, b, n));
    PrevOfIsPlain(c, a, m);
    PrevOfIsPlain(c, b, n);
    CanonicalPrev(c, a[m].prevHash, a[m], b[n].prevHash, b[n]);
  }

  lemma SameHistoryExtends(c: Codec, a: seq<Entry>, b: seq<Entry>)
    requires a != [] && b != [] && SameHistory(c, a[..|a| - 1], b[..|b| - 1])
    requires a[|a| - 1].hash == b[|b| - 1].hash && CanonicalAt(c, a, |a| - 1) == CanonicalAt(c, b, |b| - 1)
    ensures SameHistory(c, a, b)
  {
    forall i | 0 <= i < |a| - 1 ensures a[i].hash == b[i].hash && CanonicalAt(c, a, i) == CanonicalAt(c, b, i) {
      assert CanonicalAt(c, a[..|a| - 1], i) == CanonicalAt(c, b[..|b| - 1], i);
    }
  }

  lemma PrefixNoCollision(c: Codec, a: seq<Entry>, b: seq<Entry>, i: nat, j: nat)
    requires NoCollision(c, a, b) && i <= |a| && j <= |b|
    ensures NoCollision(c, a[..i], b[..j])
  {
    forall x, y | 0 <= x < i && 0 <= y < j && c.sha(CanonicalAt(c, a[..i], x)) == c.sha(CanonicalAt(c, b[..j], y))
      ensures CanonicalAt(c, a[..i], x) == CanonicalAt(c, b[..j], y)
    {
      assert CanonicalAt(c, a[..i], x) == CanonicalAt(c, a, x) && CanonicalAt(c, b[..j], y) == CanonicalAt(c, b, y);
    }
  }

  /** The head hash commits to the whole history: two logs that verify and end in the
      same hash have the same length and the same records throughout. */
  lemma {:induction false} HeadCommits(c: Codec, a: seq<Entry>, b: seq<Entry>)
    requires c.Sane() && Intact(c, a) && Intact(c, b) && NoCollision(c, a, b)
    requires PrevOf(a, |a|) == PrevOf(b, |b|)
    ensures SameHistory(c, a, b)
    decreases |a|
  {
    PrevOfIsPlain(c, a, |a|);
    PrevOfIsPlain(c, b, |b|);
    if a == [] {
    } else {
      var m, n := |a| - 1, |b| - 1;
      HeadStep(c, a, b);
      IntactPrefix(c, a, m);
      IntactPrefix(c, b, n);
      PrefixNoCollision(c, a, b, m, n);
      HeadCommits(c, a[..m], b[..n]);
      SameHistoryExtends(c, a, b);
    }
  }

  /** Every prefix of the chain has a different head. */
  lemma HashesDistinct(c: Codec, log: seq<Entry>, i: nat, j: nat)
    requires c.Sane() && Intact(c, log) && NoCollision(c, log, log) && i < j <= |log|
    ensures PrevOf(log, i) != PrevOf(log, j)
  {
    if PrevOf(log, i) == PrevOf(log, j) {
      IntactPrefix(c, log, i);
      IntactPrefix(c, log, j);
      PrefixNoCollision(c, log, log, i, j);
      HeadCommits(c, log[..i], log[..j]);
    }
  }

  /** An entry's link never equals the link of the entry before it. */
  lemma LinksDiffer(c: Codec, log: seq<Entry>, i: nat)
    requires c.Sane() && Intact(c, log) && NoCollision(c, log, log) && i + 1 < |log|
    ensures log[i + 1].prevHash != PrevOf(log, i)
  {
    HashesDistinct(c, log, i, i + 1);
    assert GoodAt(c, log, i + 1);
  }

  /** Deleting one entry of an intact log goes unnoticed exactly when it is the last;
      otherwise the entry after it is the first bad one. */
  lemma DeletionDetectedIff(c: Codec, log: seq<Entry>, k: nat)
    requires c.Sane() && Intact(c, log) && NoCollision(c, log, log) && k < |log|
    ensures var cut := log[..k] + log[k + 1..];
            && (Intact(c, cut) <==> k == |log| - 1)
            && (k < |log| - 1 ==> !GoodAt(c, cut, k) && forall i :: 0 <= i < k ==> GoodAt(c, cut, i))
  {
    var cut := log[..k] + log[k + 1..];
    assert PrevOf(cut, k) == PrevOf(log, k);
    forall i | 0 <= i < k ensures GoodAt(c, cut, i) {
      assert GoodAt(c, log, i) && PrevOf(cut, i) == PrevOf(log, i) && cut[i] == log[i];
    }
    if k < |log| - 1 {
      LinksDiffer(c, log, k);
      assert cut[k] == log[k + 1];
      assert !GoodAt(c, cut, k);
    }
  }

  /** Truncation at the tail is never noticed. */
  lemma TruncationUndetected(c: Codec, log: seq<Entry>, k: nat)
    requires Intact(c, log) && k <= |log|
    ensures Intact(c, log[..k])
  {
    IntactPrefix(c, log, k);
  }

  /** Replacing an entry of an intact log goes unnoticed exactly if the new one carries
      the right link and its own recomputed hash and, unless it is the last, that hash is
      the old one. So the last entry can be replaced at will. */
  lemma ModificationDetectedIff(c: Codec, log: seq<Entry>, k: nat, e: Entry)
    requires Intact(c, log) && k < |log|
    ensures Intact(c, log[k := e]) <==>
              && e.prevHash == PrevOf(log, k) && e.hash == Hash(c, e.prevHash, e)
              && (k < |log| - 1 ==> e.hash == log[k].hash)
  {
    var changed := log[k := e];
    assert forall i :: 0 <= i <= |log| && i != k + 1 ==> PrevOf(changed, i) == PrevOf(log, i);
    assert forall i :: 0 <= i < |log| && i != k && i != k + 1 ==> (GoodAt(c, changed, i) <==> GoodAt(c, log, i));
    assert GoodAt(c, changed, k) <==> e.prevHash == PrevOf(log, k) && e.hash == Hash(c, e.prevHash, e);
    if k < |log| - 1 {
      assert GoodAt(c, log, k + 1) && PrevOf(changed, k + 1) == e.hash;
      assert GoodAt(c, changed, k + 1) <==> e.hash == log[k].hash;
    }
  }

  /** Replacing a non-final entry of an intact log goes unnoticed only if its hash and its
      canonical record stay the same. */
  lemma ModificationDetected(c: Codec, log: seq<Entry>, k: nat, e: Entry)
    requires c.Sane() && Intact(c, log) && k < |log| - 1
    requires NoCollision(c, log[..k + 1], log[k := e][..k + 1])
    requires Intact(c, log[k := e])
    ensures e.hash == log[k].hash && Canonical(c, e.prevHash, e) == CanonicalAt(c, log, k)
  {
    var changed := log[k := e];
    assert GoodAt(c, log, k + 1) && GoodAt(c, changed, k + 1);
    IntactPrefix(c, log, k + 1);
    IntactPrefix(c, changed, k + 1);
    HeadCommits(c, log[..k + 1], changed[..k + 1]);
    assert CanonicalAt(c, log[..k + 1], k) == CanonicalAt(c, changed[..k + 1], k);
  }

  /** No entry at all can be slipped into the middle of an intact log. */
  lemma InsertionDetected(c: Codec, log: seq<Entry>, k: nat, e: Entry)
    requires c.Sane() && Intact(c, log) && k < |log|
    requires var grown := log[..k] + [e] + log[k..]; NoCollision(c, grown, grown)
    ensures !Intact(c, log[..k] + [e] + log[k..])
  {
    var grown := log[..k] + [e] + log[k..];
    assert grown[k + 1] == log[k] && PrevOf(grown, k) == PrevOf(log, k) && GoodAt(c, log, k);
    if Intact(c, grown) {
      LinksDiffer(c, grown, k);
    }
  }

  // ---------- what the canonical record determines ----------

  predicate SameContent(e: Entry, e': Entry) {
    && e.ts == e'.ts && e.actor == e'.actor && e.role == e'.role && e.verb == e'.verb
    && e.path == e'.path && e.status == e'.status && e.remoteIp == e'.remoteIp
  }

  predicate PlainFields(e: Entry) {
    Plain(e.actor, '|') && Plain(e.role, '|') && Plain(e.verb, '|') && Plain(e.path, '|')
  }

  ghost predicate PrintedNumber(s: string) {
    exists n: int :: Itoa(n) == s
  }

  /** No part of the address but the last could be read as a status. */
  ghost predicate PlainAddress(remoteIp: string) {
    forall i :: 0 <= i < |Split(remoteIp, '|')| - 1 ==> !PrintedNumber(Split(remoteIp, '|')[i])
  }

  /** The parts of the four fields before the status. */
  function Middle(e: Entry): seq<string> {
    Split(e.actor, '|') + Split(e.role, '|') + Split(e.verb, '|') + Split(e.path, '|')
  }

  lemma ItoaPlain(n: int)
    ensures Split(Itoa(n), '|') == [Itoa(n)]
  {
    SplitPlain(Itoa(n), '|');
  }

  lemma PartsOfMiddle(e: Entry)
    ensures Parts([e.actor, e.role, e.verb, e.path], '|') == Middle(e)
  {
    PartsConcat([e.actor, e.role], [e.verb, e.path], '|');
    PartsOfTwo(e.actor, e.role, '|');
    PartsOfTwo(e.verb, e.path, '|');
    assert [e.actor, e.role] + [e.verb, e.path] == [e.actor, e.role, e.verb, e.path];
  }

  lemma HeadParts(c: Codec, prev: string, ts: int)
    requires c.Sane() && Plain(prev, '|')
    ensures Parts([prev, c.stamp(ts)], '|') == [prev, c.stamp(ts)]
  {
    PartsOfTwo(prev, c.stamp(ts), '|');
    SplitPlain(prev, '|');
    SplitPlain(c.stamp(ts), '|');
  }

  lemma FieldsInThree(c: Codec, prev: string, e: Entry)
    ensures Fields(c, prev, e) ==
              [prev, c.stamp(e.ts)] + ([e.actor, e.role, e.verb, e.path] + [Itoa(e.status), e.remoteIp])
  {
  }

  lemma TailParts(e: Entry)
    ensures Parts([Itoa(e.status), e.remoteIp], '|') == [Itoa(e.status)] + Split(e.remoteIp, '|')
  {
    PartsOfTwo(Itoa(e.status), e.remoteIp, '|');
    ItoaPlain(e.status);
  }

  lemma CanonicalParts(c: Codec, prev: string, e: Entry)
    requires c.Sane() && Plain(prev, '|')
    ensures Split(Canonical(c, prev, e), '|')
        == [prev, c.stamp(e.ts)] + Middle(e) + [Itoa(e.status)] + Split(e.remoteIp, '|')
  {
    var head, middle, tail := [prev, c.stamp(e.ts)], [e.actor, e.role, e.verb, e.path], [Itoa(e.status), e.remoteIp];
    FieldsInThree(c, prev, e);
    SplitOfJoin(Fields(c, prev, e), '|');
    PartsConcat(head, middle + tail, '|');
    PartsConcat(middle, tail, '|');
    HeadParts(c, prev, e.ts);
    PartsOfMiddle(e);
    TailParts(e);
    Regroup(head, Middle(e), [Itoa(e.status)] + Split(e.remoteIp, '|'));
    Regroup(head + Middle(e), [Itoa(e.status)], Split(e.remoteIp, '|'));
  }

  lemma PlainMiddle(e: Entry)
    ensures |Middle(e)| >= 4
    ensures PlainFields(e) <==> |Middle(e)| == 4
    ensures PlainFields(e) ==> Middle(e) == [e.actor, e.role, e.verb, e.path]
  {
    SplitPlain(e.actor, '|');
    SplitPlain(e.role, '|');
    SplitPlain(e.verb, '|');
    SplitPlain(e.path, '|');
  }

  /** Two readings of one sequence of parts, the first with four parts in the middle: either
      the second has four as well and they agree, or it takes an inner part of the first
      one's tail for its status. */
  lemma TwoReadings(head: seq<string>, m: seq<string>, n: string, t: seq<string>,
                    head': seq<string>, m': seq<string>, n': string, t': seq<string>)
    requires |head| == |head'| == 2 && |m| == 4 && |m'| >= 4 && t != [] && t' != []
    requires head + m + [n] + t == head' + m' + [n'] + t'
    ensures head == head'
    ensures |m'| == 4 ==> m == m' && n == n' && t == t'
    ensures |m'| > 4 ==> 0 <= |m'| - 5 < |t| - 1 && t[|m'| - 5] == n'
  {
    var s, s' := head + m + [n] + t, head' + m' + [n'] + t';
    assert s[..2] == head && s'[..2] == head';
    if |m'| == 4 {
      assert s[2..6] == m && s'[2..6] == m' && s[6] == n && s'[6] == n' && s[7..] == t && s'[7..] == t';
    } else {
      assert |t| == |m'| - 4 + |t'|;
      assert s[2 + |m'|] == t[|m'| - 5] && s'[2 + |m'|] == n';
    }
  }

  lemma SameParts(e: Entry, e': Entry)
    requires [e.actor, e.role, e.verb, e.path] == [e'.actor, e'.role, e'.verb, e'.path]
    ensures e.actor == e'.actor && e.role == e'.role && e.verb == e'.verb && e.path == e'.path
  {
    var l, r := [e.actor, e.role, e.verb, e.path], [e'.actor, e'.role, e'.verb, e'.path];
    assert l[0] == r[0] && l[1] == r[1] && l[2] == r[2] && l[3] == r[3];
  }

  lemma PlainDetermines(c: Codec, prev: string, e: Entry, e': Entry)
    requires c.Sane() && Plain(prev, '|') && PlainFields(e) && PlainAddress(e.remoteIp)
    requires Canonical(c, prev, e') == Canonical(c, prev, e)
    ensures SameContent(e, e')
  {
    CanonicalParts(c, prev, e);
    CanonicalParts(c, prev, e');
    PlainMiddle(e);
    PlainMiddle(e');
    TwoReadings([prev, c.stamp(e.ts)], Middle(e), Itoa(e.status), Split(e.remoteIp, '|'),
                [prev, c.stamp(e'.ts)], Middle(e'), Itoa(e'.status), Split(e'.remoteIp, '|'));
    if |Middle(e')| > 4 {
      assert PrintedNumber(Split(e.remoteIp, '|')[|Middle(e')| - 5]);
      assert false;
    } else {
      assert [prev, c.stamp(e.ts)][1] == [prev, c.stamp(e'.ts)][1];
      SameParts(e, e');
      ItoaInjective(e.status, e'.status);
      JoinSplit(e.remoteIp, '|');
      JoinSplit(e'.remoteIp, '|');
    }
  }

  /** Moving the text after a separator from the end of one field to the front of the next. */
  lemma {:induction false} MoveSeparator(pre: seq<string>, x: string, y: string, z: string, post: seq<string>)
    requires post != []
    ensures Join(pre + [x + "|" + y, z] + post, '|') == Join(pre + [x, y + "|" + z] + post, '|')
  {
    var l, r := pre + [x + "|" + y, z] + post, pre + [x, y + "|" + z] + post;
    if pre == [] {
      assert l[1..] == [z] + post && r[1..] == [y + "|" + z] + post;
      assert ([z] + post)[1..] == post && ([y + "|" + z] + post)[1..] == post;
      var tail := Join(post, '|');
      assert Join(l, '|') == (x + "|" + y) + ['|'] + (z + ['|'] + tail);
      assert Join(r, '|') == x + ['|'] + ((y + "|" + z) + ['|'] + tail);
    } else {
      MoveSeparator(pre[1..], x, y, z, post);
      assert l[1..] == pre[1..] + [x + "|" + y, z] + post && r[1..] == pre[1..] + [x, y + "|" + z] + post;
    }
  }

  lemma CutAtSeparator(s: string) returns (x: string, y: string)
    requires !Plain(s, '|')
    ensures s == x + "|" + y
  {
    var i :| 0 <= i < |s| && s[i] == '|';
    x, y := s[..i], s[i + 1..];
  }

  /** A different entry with the same canonical record. */
  lemma Twin(c: Codec, prev: string, e: Entry) returns (e': Entry)
    requires !PlainFields(e)
    ensures Canonical(c, prev, e') == Canonical(c, prev, e) && !SameContent(e, e')
  {
    var f := Fields(c, prev, e);
    if !Plain(e.actor, '|') {
      var x, y := CutAtSeparator(e.actor);
      MoveSeparator(f[..2], x, y, e.role, f[4..]);
      e' := e.(actor := x, role := y + "|" + e.role);
      assert f == f[..2] + [x + "|" + y, e.role] + f[4..];
      assert Fields(c, prev, e') == f[..2] + [x, y + "|" + e.role] + f[4..];
    } else if !Plain(e.role, '|') {
      var x, y := CutAtSeparator(e.role);
      MoveSeparator(f[..3], x, y, e.verb, f[5..]);
      e' := e.(role := x, verb := y + "|" + e.verb);
      assert f == f[..3] + [x + "|" + y, e.verb] + f[5..];
      assert Fields(c, prev, e') == f[..3] + [x, y + "|" + e.verb] + f[5..];
    } else if !Plain(e.verb, '|') {
      var x, y := CutAtSeparator(e.verb);
      MoveSeparator(f[..4], x, y, e.path, f[6..]);
      e' := e.(verb := x, path := y + "|" + e.path);
      assert f == f[..4] + [x + "|" + y, e.path] + f[6..];
      assert Fields(c, prev, e') == f[..4] + [x, y + "|" + e.path] + f[6..];
    } else {
      var x, y := CutAtSeparator(e.path);
      MoveSeparator(f[..4], e.verb, x, y, f[6..]);
      e' := e.(verb := e.verb + "|" + x, path := y);
      assert f == f[..4] + [e.verb, x + "|" + y] + f[6..];
      assert Fields(c, prev, e') == f[..4] + [e.verb + "|" + x, y] + f[6..];
    }
  }

  /** The entry that has part i of the address for its status. */
  function Reread(e: Entry, parts: seq<string>, i: nat, n: int): Entry
    requires i < |parts| - 1
  {
    e.(path := Join([e.path, Itoa(e.status)] + parts[..i], '|'), status := n, remoteIp := Join(parts[i + 1..], '|'))
  }

  function Front(c: Codec, prev: string, e: Entry): seq<string> {
    [prev, c.stamp(e.ts), e.actor, e.role, e.verb]
  }

  lemma FieldsEnd(c: Codec, prev: string, e: Entry)
    ensures Fields(c, prev, e) == Front(c, prev, e) + [e.path, Itoa(e.status), e.remoteIp]
  {
  }

  lemma LongerPath(e: Entry, more: seq<string>)
    ensures Join([e.path, Itoa(e.status)] + more, '|') != e.path
  {
    var path := [e.path, Itoa(e.status)] + more;
    assert path[1..] == [Itoa(e.status)] + more;
    assert |Join(path, '|')| > |e.path|;
  }

  lemma NestLast(before: seq<string>, fields: seq<string>)
    requires fields != []
    ensures Join(before + [Join(fields, '|')], '|') == Join(before + fields, '|')
  {
    JoinNest(before, fields, [], '|');
    assert before + [Join(fields, '|')] + [] == before + [Join(fields, '|')] && before + fields + [] == before + fields;
  }

  lemma CutParts(front: seq<string>, path: string, status: string, parts: seq<string>, i: nat)
    requires i < |parts|
    ensures front + [path, status] + parts == front + ([path, status] + parts[..i]) + [parts[i]] + parts[i + 1..]
  {
  }

  /** Reading part i as the status. */
  lemma Rearranged(front: seq<string>, path: string, status: string, parts: seq<string>, i: nat)
    requires i < |parts| - 1
    ensures Join(front + [path, status, Join(parts, '|')], '|') ==
            Join(front + [Join([path, status] + parts[..i], '|'), parts[i], Join(parts[i + 1..], '|')], '|')
  {
    var head, tail := [path, status] + parts[..i], parts[i + 1..];
    NestLast(front + [path, status], parts);
    assert front + [path, status] + [Join(parts, '|')] == front + [path, status, Join(parts, '|')];
    JoinNest(front, head, [parts[i], Join(tail, '|')], '|');
    assert front + [Join(head, '|')] + [parts[i], Join(tail, '|')]
        == front + [Join(head, '|'), parts[i], Join(tail, '|')];
    NestLast(front + head + [parts[i]], tail);
    assert front + head + [parts[i]] + [Join(tail, '|')] == front + head + [parts[i], Join(tail, '|')];
    CutParts(front, path, status, parts, i);
  }

  /** Another: an inner part of the address is read as the status, and everything before
      it as the path. */
  lemma AddressTwin(c: Codec, prev: string, e: Entry) returns (e': Entry)
    requires !PlainAddress(e.remoteIp)
    ensures Canonical(c, prev, e') == Canonical(c, prev, e) && !SameContent(e, e')
  {
    var parts := Split(e.remoteIp, '|');
    var i :| 0 <= i < |parts| - 1 && PrintedNumber(parts[i]);
    var n: int :| Itoa(n) == parts[i];
    e' := Reread(e, parts, i, n);
    JoinSplit(e.remoteIp, '|');
    FieldsEnd(c, prev, e);
    FieldsEnd(c, prev, e');
    Rearranged(Front(c, prev, e), e.path, Itoa(e.status), parts, i);
    LongerPath(e, parts[..i]);
  }

  /** The canonical record does not escape its separator: it determines the content of an
      entry exactly when no field before the status contains the separator and no part of
      the address but the last could be read as a status. */
  lemma CanonicalDeterminesIff(c: Codec, prev: string, e: Entry)
    requires c.Sane() && Plain(prev, '|')
    ensures (forall e': Entry :: Canonical(c, prev, e') == Canonical(c, prev, e) ==> SameContent(e, e'))
            <==> PlainFields(e) && PlainAddress(e.remoteIp)
  {
    if PlainFields(e) && PlainAddress(e.remoteIp) {
      forall e': Entry | Canonical(c, prev, e') == Canonical(c, prev, e) ensures SameContent(e, e') {
        PlainDetermines(c, prev, e, e');
      }
    } else if !PlainFields(e) {
      var e' := Twin(c, prev, e);
    } else {
      var e' := AddressTwin(c, prev, e);
    }
  }
}
