/** The Redis list behind the job queue: pushed on the left, popped on the right. */
module JobQueue {
  import opened Prelude
  import opened ScanLifecycle

  class Queue {
    var list: seq<Id>

    /** The jobs in the order workers will get them. */
    ghost function Waiting(): seq<Id>
      reads this
    {
      Reversed(list)
    }

    constructor ()
      ensures Waiting() == []
    {
      list := [];
    }

    method Enqueue(id: Id)
      modifies this
      ensures Waiting() == old(Waiting()) + [id]
    {
      list := [id] + list;
      assert list[1..] == old(list);
    }

    /** The longest-waiting job, removed; none on timeout. */
    method Dequeue() returns (id: Option<Id>)
      modifies this
      ensures id == None <==> old(Waiting()) == []
      ensures id.Some? ==> old(Waiting()) == [id.value] + Waiting()
      ensures id == None ==> Waiting() == []
    {
      if list == [] {
        return None;
      }
      ReversedSnoc(list);
      id := Some(list[|list| - 1]);
      list := list[..|list| - 1];
    }
  }
}
