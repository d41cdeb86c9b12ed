/** The audit table as the store package updates it, one append at a time. */
module AuditStore {
  import opened AuditChain
  import opened AuditLog

  class Store {
    const codec: Codec
    var table: seq<Entry>
    ghost var clocks: seq<int>
    var nextNumber: int

    ghost predicate Valid()
      reads this
    {
      && TableInv(codec, table, clocks)
      && forall i :: 0 <= i < |table| ==> table[i].number < nextNumber
    }

    constructor (codec: Codec)
      ensures Valid() && table == [] && this.codec == codec
    {
      this.codec := codec;
      table, clocks, nextNumber := [], [], 1;
    }

    /** Fills in the entry's timestamp, link, hash and number and stores it. */
    method AppendAudit(request: Entry, now: int) returns (e: Entry)
      requires Valid()
      modifies this
      ensures Valid() && clocks == old(clocks) + [now]
      ensures table == old(table) + [e.(ts := Stored(now))]
      ensures e == request.(ts := now, prevHash := e.prevHash, hash := e.hash, number := old(nextNumber))
      ensures e.prevHash == (if old(table) == [] then "GENESIS" else old(table)[|old(table)| - 1].hash)
      ensures e.hash == codec.sha(Canonical(codec, e.prevHash, e))
      ensures nextNumber == old(nextNumber) + 1
      ensures e == NewRow(codec, HeadHash(old(table)), request, now, old(nextNumber)).(ts := now)
    {
      var prev := GENESIS;
      if table != [] {
        prev := Newest(table).hash;
      }
      e := request.(ts := now);
      e := e.(prevHash := prev);
      e := e.(hash := Hash(codec, prev, request.(ts := now)));
      e := e.(number := nextNumber);
      ghost var row := NewRow(codec, prev, request, now, nextNumber);
      assert e.(ts := Stored(now)) == row;
      HeadIsLast(codec, table, clocks);
      NewRowIsChained(codec, prev, request, now, nextNumber);
      CommitKeepsTable(codec, table, clocks, row, now);
      nextNumber := nextNumber + 1;
      table := table + [e.(ts := Stored(now))];
      clocks := clocks + [now];
    }

    /** Reads the whole log in sequence order and verifies it. */
    method VerifyAudit() returns (ok: bool, brokenAt: int)
      requires Valid()
      ensures ok <==> Intact(codec, table)
      ensures ok ==> brokenAt == 0
      ensures !ok ==> exists i :: && 0 <= i < |table| && !GoodAt(codec, table, i) && brokenAt == table[i].number
                                  && forall j :: 0 <= j < i ==> GoodAt(codec, table, j)
    {
      ByNumberIsCommitOrder(table);
      ok, brokenAt := VerifyChain(codec, ByNumber(table));
    }
  }
}
