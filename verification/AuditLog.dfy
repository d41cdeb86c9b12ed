/** Concurrent appenders to the audit table: transactions that begin, take the advisory
    lock, read the newest hash, insert and commit, any of which may abort at any point. */
module AuditLog {
  import opened Prelude
  import opened Text
  import opened AuditChain

  datatype Phase = Begun | Locked | Read(prev: string) | Inserted(row: Entry, clock: int)

  /** The table keeps its rows in commit order, beside the clock reading each append
      hashed. Sequence numbers come from a counter that aborts do not give back. */
  datatype State = State(
    table: seq<Entry>, clocks: seq<int>, nextNumber: int, holder: Option<nat>, txs: map<nat, Phase>)

  datatype Action =
    | Begin(tx: nat)
    | Lock(tx: nat)
    | ReadHead(tx: nat)
    | Insert(tx: nat, request: Entry, now: int)
    | Commit(tx: nat)
    | Abort(tx: nat)

  const INITIAL := State([], [], 1, None, map[])

  /** The timestamp column keeps whole microseconds. */
  function Stored(clock: int): int {
    clock / 1000 * 1000
  }

  // ---------- the queries ----------

  function Newest(table: seq<Entry>): Entry
    requires table != []
  {
    var n := |table| - 1;
    if n == 0 || table[n].number > Newest(table[..n]).number then table[n] else Newest(table[..n])
  }

  function HeadHash(table: seq<Entry>): string {
    if table == [] then GENESIS else Newest(table).hash
  }

  function InsertByNumber(sorted: seq<Entry>, e: Entry): seq<Entry> {
    var n := |sorted| - 1;
    if sorted != [] && e.number < sorted[n].number then InsertByNumber(sorted[..n], e) + [sorted[n]] else sorted + [e]
  }

  /** The rows in ascending sequence order, as verification reads them. */
  function ByNumber(table: seq<Entry>): seq<Entry> {
    if table == [] then [] else InsertByNumber(ByNumber(table[..|table| - 1]), table[|table| - 1])
  }

  /** What an append writes: the hash is taken of the clock reading, the row stores the
      column's version of it. */
  function NewRow(c: Codec, prev: string, request: Entry, now: int, number: int): Entry {
    request.(number := number, ts := Stored(now), prevHash := prev, hash := Hash(c, prev, request.(ts := now)))
  }

  // ---------- steps ----------

  predicate Enabled(s: State, a: Action) {
    match a
    case Begin(tx) => tx !in s.txs
    case Lock(tx) => tx in s.txs && s.txs[tx].Begun? && s.holder.None?
    case ReadHead(tx) => tx in s.txs && s.txs[tx].Locked?
    case Insert(tx, _, _) => tx in s.txs && s.txs[tx].Read?
    case Commit(tx) => tx in s.txs && s.txs[tx].Inserted?
    case Abort(tx) => tx in s.txs
  }

  function Next(c: Codec, s: State, a: Action): State
    requires Enabled(s, a)
  {
    match a
    case Begin(tx) => s.(txs := s.txs[tx := Begun])
    case Lock(tx) => s.(holder := Some(tx), txs := s.txs[tx := Locked])
    case ReadHead(tx) => s.(txs := s.txs[tx := Read(HeadHash(s.table))])
    case Insert(tx, request, now) =>
      var row := NewRow(c, s.txs[tx].prev, request, now, s.nextNumber);
      s.(nextNumber := s.nextNumber + 1, txs := s.txs[tx := Inserted(row, now)])
    case Commit(tx) =>
      s.(table := s.table + [s.txs[tx].row], clocks := s.clocks + [s.txs[tx].clock],
         holder := None, txs := s.txs - {tx})
    case Abort(tx) =>
      s.(holder := if s.holder == Some(tx) then None else s.holder, txs := s.txs - {tx})
  }

  predicate IsRun(c: Codec, states: seq<State>, actions: seq<Action>) {
    && |states| == |actions| + 1 && states[0] == INITIAL
    && forall i :: 0 <= i < |actions| ==>
         Enabled(states[i], actions[i]) && states[i + 1] == Next(c, states[i], actions[i])
  }

  // ---------- invariant ----------

  /** A row chained to prev whose hash covers the clock reading. */
  predicate Chained(c: Codec, prev: string, row: Entry, clock: int) {
    row.prevHash == prev && row.ts == Stored(clock) && row.hash == Hash(c, prev, row.(ts := clock))
  }

  predicate ChainedAt(c: Codec, table: seq<Entry>, clocks: seq<int>, i: int)
    requires |clocks| == |table| && 0 <= i < |table|
  {
    Chained(c, PrevOf(table, i), table[i], clocks[i])
  }

  ghost predicate TableInv(c: Codec, table: seq<Entry>, clocks: seq<int>) {
    && |clocks| == |table|
    && (forall i, j :: 0 <= i < j < |table| ==> table[i].number < table[j].number)
    && (forall i :: 0 <= i < |table| ==> ChainedAt(c, table, clocks, i))
  }

  /** A transaction past the lock holds it, and what it has read is still the head. */
  predicate TxInv(c: Codec, s: State, tx: nat, phase: Phase) {
    && (!phase.Begun? <==> s.holder == Some(tx))
    && (phase.Read? ==> phase.prev == PrevOf(s.table, |s.table|))
    && (phase.Inserted? ==>
          && Chained(c, PrevOf(s.table, |s.table|), phase.row, phase.clock) && phase.row.number < s.nextNumber
          && forall i :: 0 <= i < |s.table| ==> s.table[i].number < phase.row.number)
  }

  ghost predicate Inv(c: Codec, s: State) {
    && TableInv(c, s.table, s.clocks)
    && (forall i :: 0 <= i < |s.table| ==> s.table[i].number < s.nextNumber)
    && (s.holder.Some? ==> s.holder.value in s.txs)
    && (forall tx :: tx in s.txs ==> TxInv(c, s, tx, s.txs[tx]))
  }

  lemma {:induction false} NewestIsLast(table: seq<Entry>)
    requires table != [] && forall i, j :: 0 <= i < j < |table| ==> table[i].number < table[j].number
    ensures Newest(table) == table[|table| - 1]
  {
    if |table| <= 1 {
    } else {
      NewestIsLast(table[..|table| - 1]);
    }
  }

  /** In commit order the newest row is the last one, so the head read under the lock is
      the hash the chain ends in. */
  lemma HeadIsLast(c: Codec, table: seq<Entry>, clocks: seq<int>)
    requires TableInv(c, table, clocks)
    ensures HeadHash(table) == PrevOf(table, |table|)
  {
    if table != [] {
      NewestIsLast(table);
    }
  }

  lemma CommitKeepsTable(c: Codec, table: seq<Entry>, clocks: seq<int>, row: Entry, clock: int)
    requires TableInv(c, table, clocks) && Chained(c, PrevOf(table, |table|), row, clock)
    requires forall i :: 0 <= i < |table| ==> table[i].number < row.number
    ensures TableInv(c, table + [row], clocks + [clock])
  {
    var table', clocks' := table + [row], clocks + [clock];
    forall i | 0 <= i < |table'| ensures ChainedAt(c, table', clocks', i) {
      assert PrevOf(table', i) == PrevOf(table, i);
      if i < |table| {
        assert ChainedAt(c, table, clocks, i);
      }
    }
  }

  /** Nobody else is past the lock while one transaction holds it. */
  lemma OthersAreWaiting(c: Codec, s: State, tx: nat)
    requires Inv(c, s) && tx in s.txs && !s.txs[tx].Begun?
    ensures s.holder == Some(tx)
    ensures forall other :: other in s.txs && other != tx ==> s.txs[other].Begun?
  {
    assert TxInv(c, s, tx, s.txs[tx]);
    forall other | other in s.txs && other != tx ensures s.txs[other].Begun? {
      assert TxInv(c, s, other, s.txs[other]);
    }
  }

  lemma CommitKeepsInv(c: Codec, s: State, tx: nat)
    requires Inv(c, s) && Enabled(s, Commit(tx))
    ensures Inv(c, Next(c, s, Commit(tx)))
  {
    OthersAreWaiting(c, s, tx);
    var phase := s.txs[tx];
    assert TxInv(c, s, tx, phase);
    CommitKeepsTable(c, s.table, s.clocks, phase.row, phase.clock);
  }

  lemma NewRowIsChained(c: Codec, prev: string, request: Entry, now: int, number: int)
    ensures Chained(c, prev, NewRow(c, prev, request, now, number), now)
  {
    var row := NewRow(c, prev, request, now, number);
    assert Fields(c, prev, row.(ts := now)) == Fields(c, prev, request.(ts := now));
  }

  lemma InsertKeepsInv(c: Codec, s: State, tx: nat, request: Entry, now: int)
    requires Inv(c, s) && Enabled(s, Insert(tx, request, now))
    ensures Inv(c, Next(c, s, Insert(tx, request, now)))
  {
    OthersAreWaiting(c, s, tx);
    assert TxInv(c, s, tx, s.txs[tx]);
    var s' := Next(c, s, Insert(tx, request, now));
    NewRowIsChained(c, s.txs[tx].prev, request, now, s.nextNumber);
    assert TxInv(c, s', tx, s'.txs[tx]);
  }

  lemma NextKeepsInv(c: Codec, s: State, a: Action)
    requires Inv(c, s) && Enabled(s, a)
    ensures Inv(c, Next(c, s, a))
  {
    match a
    case Begin(_) =>
    case Lock(tx) =>
      forall other | other in s.txs ensures s.txs[other].Begun? {
        assert TxInv(c, s, other, s.txs[other]);
      }
    case ReadHead(tx) =>
      OthersAreWaiting(c, s, tx);
      HeadIsLast(c, s.table, s.clocks);
    case Insert(tx, request, now) => InsertKeepsInv(c, s, tx, request, now);
    case Commit(tx) => CommitKeepsInv(c, s, tx);
    case Abort(tx) =>
      if !s.txs[tx].Begun? {
        OthersAreWaiting(c, s, tx);
      } else {
        assert TxInv(c, s, tx, s.txs[tx]);
      }
  }

  lemma {:induction false} RunKeepsInv(c: Codec, states: seq<State>, actions: seq<Action>, i: nat)
    requires IsRun(c, states, actions) && i < |states|
    ensures Inv(c, states[i])
  {
    if i == 0 {
    } else {
      RunKeepsInv(c, states, actions, i - 1);
      NextKeepsInv(c, states[i - 1], actions[i - 1]);
    }
  }

  // ---------- theorems ----------

  lemma {:induction false} ByNumberIsCommitOrder(table: seq<Entry>)
    requires forall i, j :: 0 <= i < j < |table| ==> table[i].number < table[j].number
    ensures ByNumber(table) == table
  {
    if table == [] {
    } else {
      ByNumberIsCommitOrder(table[..|table| - 1]);
      assert table == table[..|table| - 1] + [table[|table| - 1]];
    }
  }

  /** Under every interleaving, aborts included, the log in sequence order never forks:
      each row is linked to the hash of the row just before it, the first to GENESIS. */
  lemma ChainNeverForks(c: Codec, states: seq<State>, actions: seq<Action>, i: nat)
    requires IsRun(c, states, actions) && i < |states|
    ensures var log := ByNumber(states[i].table);
            && (log != [] ==> log[0].prevHash == "GENESIS")
            && forall k :: 0 < k < |log| ==> log[k].prevHash == log[k - 1].hash
  {
    RunKeepsInv(c, states, actions, i);
    ByNumberIsCommitOrder(states[i].table);
    var table, clocks := states[i].table, states[i].clocks;
    if table != [] {
      assert ChainedAt(c, table, clocks, 0);
    }
    forall k | 0 < k < |table| ensures table[k].prevHash == table[k - 1].hash {
      assert ChainedAt(c, table, clocks, k);
    }
  }

  /** The record with the clock reading and the record with the stored timestamp hash
      alike only if they are the same record. */
  ghost predicate NoTimestampCollision(c: Codec, table: seq<Entry>, clocks: seq<int>)
    requires |clocks| == |table|
  {
    forall i :: 0 <= i < |table| ==>
      var prev, row := table[i].prevHash, table[i];
      Hash(c, prev, row.(ts := clocks[i])) == Hash(c, prev, row) ==>
        Canonical(c, prev, row.(ts := clocks[i])) == Canonical(c, prev, row)
  }

  lemma SecondFieldDetermined(a: string, x: string, y: string, rest: string)
    requires a + ['|'] + (x + ['|'] + rest) == a + ['|'] + (y + ['|'] + rest)
    ensures x == y
  {
    var l, r := a + ['|'] + (x + ['|'] + rest), a + ['|'] + (y + ['|'] + rest);
    assert |l| == |a| + |x| + |rest| + 2 && |r| == |a| + |y| + |rest| + 2;
    assert x == l[|a| + 1..|a| + 1 + |x|] && y == r[|a| + 1..|a| + 1 + |y|];
  }

  /** Two records that differ in the timestamp alone have different canonical forms. */
  lemma TimestampIsHashed(c: Codec, prev: string, e: Entry, t: int)
    requires c.Sane() && Canonical(c, prev, e.(ts := t)) == Canonical(c, prev, e)
    ensures t == e.ts
  {
    var f, f' := Fields(c, prev, e), Fields(c, prev, e.(ts := t));
    assert f[1..][1..] == f'[1..][1..];
    var rest := Join(f[1..][1..], '|');
    assert Join(f[1..], '|') == c.stamp(e.ts) + ['|'] + rest && Join(f'[1..], '|') == c.stamp(t) + ['|'] + rest;
    SecondFieldDetermined(prev, c.stamp(t), c.stamp(e.ts), rest);
  }

  lemma RowGoodIff(c: Codec, table: seq<Entry>, clocks: seq<int>, i: int)
    requires c.Sane() && TableInv(c, table, clocks) && NoTimestampCollision(c, table, clocks) && 0 <= i < |table|
    ensures GoodAt(c, table, i) <==> clocks[i] % 1000 == 0
  {
    var row := table[i];
    assert ChainedAt(c, table, clocks, i);
    assert row.ts == clocks[i] <==> clocks[i] % 1000 == 0;
    if row.ts == clocks[i] {
      assert row.(ts := clocks[i]) == row;
    } else if GoodAt(c, table, i) {
      TimestampIsHashed(c, row.prevHash, row, clocks[i]);
    }
  }

  /** When the committed log verifies, exactly. Appending hashes the clock reading in
      nanoseconds and stores it in microseconds, so after any run an entry verifies iff its
      clock reading was a whole microsecond, and the log iff all of its readings were. */
  lemma LogVerifiesIff(c: Codec, states: seq<State>, actions: seq<Action>, i: nat)
    requires c.Sane() && IsRun(c, states, actions) && i < |states|
    requires |states[i].clocks| == |states[i].table| && NoTimestampCollision(c, states[i].table, states[i].clocks)
    ensures |ByNumber(states[i].table)| == |states[i].clocks|
    ensures forall k :: 0 <= k < |states[i].clocks| ==>
              (GoodAt(c, ByNumber(states[i].table), k) <==> states[i].clocks[k] % 1000 == 0)
    ensures Intact(c, ByNumber(states[i].table)) <==>
              forall k :: 0 <= k < |states[i].clocks| ==> states[i].clocks[k] % 1000 == 0
  {
    var s := states[i];
    RunKeepsInv(c, states, actions, i);
    ByNumberIsCommitOrder(s.table);
    forall k | 0 <= k < |s.clocks| ensures GoodAt(c, s.table, k) <==> s.clocks[k] % 1000 == 0 {
      RowGoodIff(c, s.table, s.clocks, k);
    }
  }

  /** So with clock readings the column stores unchanged, every interleaving leaves a log
      that verifies, whatever the hash function. */
  lemma WholeMicrosecondsVerify(c: Codec, states: seq<State>, actions: seq<Action>, i: nat)
    requires IsRun(c, states, actions) && i < |states|
    requires forall k :: 0 <= k < |states[i].clocks| ==> states[i].clocks[k] % 1000 == 0
    ensures Intact(c, ByNumber(states[i].table))
  {
    var table, clocks := states[i].table, states[i].clocks;
    RunKeepsInv(c, states, actions, i);
    ByNumberIsCommitOrder(table);
    forall k | 0 <= k < |table| ensures GoodAt(c, table, k) {
      assert ChainedAt(c, table, clocks, k) && clocks[k] % 1000 == 0;
      assert table[k].(ts := clocks[k]) == table[k];
    }
  }

  lemma ExtendRun(c: Codec, states: seq<State>, actions: seq<Action>, a: Action)
    requires IsRun(c, states, actions) && Enabled(states[|actions|], a)
    ensures IsRun(c, states + [Next(c, states[|actions|], a)], actions + [a])
  {
  }

  lemma RowBroken(c: Codec, request: Entry)
    requires Hash(c, GENESIS, request.(ts := 1)) != Hash(c, GENESIS, request.(ts := 0))
    ensures !Intact(c, ByNumber([NewRow(c, GENESIS, request, 1, 1)]))
  {
    var row := NewRow(c, GENESIS, request, 1, 1);
    ByNumberIsCommitOrder([row]);
    assert Fields(c, GENESIS, row) == Fields(c, GENESIS, request.(ts := 0));
    assert !GoodAt(c, [row], 0);
  }

  lemma OneReader(c: Codec) returns (states: seq<State>, actions: seq<Action>)
    ensures IsRun(c, states, actions) && |actions| == 3
    ensures states[3] == State([], [], 1, Some(0), map[0 := Read(GENESIS)])
  {
    states, actions := [INITIAL], [];
    ExtendRun(c, states, actions, Begin(0));
    states, actions := states + [State([], [], 1, None, map[0 := Begun])], actions + [Begin(0)];
    ExtendRun(c, states, actions, Lock(0));
    states, actions := states + [State([], [], 1, Some(0), map[0 := Locked])], actions + [Lock(0)];
    ExtendRun(c, states, actions, ReadHead(0));
    states, actions := states + [State([], [], 1, Some(0), map[0 := Read(GENESIS)])], actions + [ReadHead(0)];
  }

  lemma OneAppend(c: Codec, request: Entry) returns (states: seq<State>, actions: seq<Action>)
    ensures IsRun(c, states, actions) && |states| == 6
    ensures states[5].table == [NewRow(c, GENESIS, request, 1, 1)]
  {
    var row := NewRow(c, GENESIS, request, 1, 1);
    states, actions := OneReader(c);
    ExtendRun(c, states, actions, Insert(0, request, 1));
    states := states + [State([], [], 2, Some(0), map[0 := Inserted(row, 1)])];
    actions := actions + [Insert(0, request, 1)];
    ExtendRun(c, states, actions, Commit(0));
    states, actions := states + [State([row], [1], 2, None, map[])], actions + [Commit(0)];
  }

  /** One append at a clock reading of one nanosecond: unless two records that differ in
      the timestamp hash alike, the log it leaves does not verify. */
  lemma OneAppendBroken(c: Codec, request: Entry) returns (states: seq<State>, actions: seq<Action>)
    requires Hash(c, GENESIS, request.(ts := 1)) != Hash(c, GENESIS, request.(ts := 0))
    ensures IsRun(c, states, actions) && |states| == 6
    ensures |states[5].table| == 1 && !Intact(c, ByNumber(states[5].table))
  {
    states, actions := OneAppend(c, request);
    RowBroken(c, request);
  }
}
