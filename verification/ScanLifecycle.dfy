/** Scan jobs between the API, the queue and any number of workers. */
module ScanLifecycle {
  import opened Prelude

  type Id = string

  datatype Status = Queued | Running | Completed | Failed

  predicate Terminal(s: Status) {
    s.Completed? || s.Failed?
  }

  /** What a worker is doing with the job it took. Reporting follows an error return;
      its flag remembers that the completion update had in fact taken effect. */
  datatype Work = Fetched(id: Id) | Scanning(id: Id) | Reporting(id: Id, completed: bool)

  /** The queue is a Redis list: pushed on the left, popped on the right. The last two
      fields record every push and every pop in order. */
  datatype State = State(jobs: map<Id, Status>, created: set<Id>, queue: seq<Id>, workers: map<nat, Work>,
                         pushed: seq<Id>, popped: seq<Id>)

  const INITIAL := State(map[], {}, [], map[], [], [])

  /** An update either fails without effect, or takes effect with its reply delivered or
      lost. */
  datatype Update = Done | NoEffect | ReplyLost

  datatype Action =
    | Create(id: Id)
    | Enqueue(id: Id)
    | GiveUp(id: Id)
    | Dequeue(worker: nat)
    | LoadFails(worker: nat)
    | MarkRunning(worker: nat, result: Update)
    | MarkCompleted(worker: nat, result: Update)
    | MarkAllFailed(worker: nat, result: Update)
    | Report(worker: nat, result: Update)
    | Crash(worker: nat)

  predicate Enabled(s: State, a: Action) {
    match a
    case Create(id) => id !in s.jobs
    case Enqueue(id) => id in s.created
    case GiveUp(id) => id in s.created
    case Dequeue(w) => w !in s.workers && s.queue != []
    case LoadFails(w) => w in s.workers && s.workers[w].Fetched?
    case MarkRunning(w, _) => w in s.workers && s.workers[w].Fetched?
    case MarkCompleted(w, _) => w in s.workers && s.workers[w].Scanning?
    case MarkAllFailed(w, _) => w in s.workers && s.workers[w].Scanning?
    case Report(w, _) => w in s.workers && s.workers[w].Reporting?
    case Crash(w) => w in s.workers
  }

  function SetStatus(s: State, id: Id, status: Status, result: Update): State {
    if result.NoEffect? then s else s.(jobs := s.jobs[id := status])
  }

  function Next(s: State, a: Action): State
    requires Enabled(s, a)
  {
    match a
    case Create(id) => s.(jobs := s.jobs[id := Queued], created := s.created + {id})
    case Enqueue(id) => s.(created := s.created - {id}, queue := [id] + s.queue, pushed := s.pushed + [id])
    case GiveUp(id) => s.(created := s.created - {id})
    case Dequeue(w) =>
      var n := |s.queue| - 1;
      s.(queue := s.queue[..n], workers := s.workers[w := Fetched(s.queue[n])], popped := s.popped + [s.queue[n]])
    case LoadFails(w) => s.(workers := s.workers[w := Reporting(s.workers[w].id, false)])
    case MarkRunning(w, result) =>
      var id := s.workers[w].id;
      var work := if result.Done? then Scanning(id) else Reporting(id, false);
      SetStatus(s, id, Running, result).(workers := s.workers[w := work])
    case MarkCompleted(w, result) =>
      var id := s.workers[w].id;
      SetStatus(s, id, Completed, result).(workers :=
        if result.Done? then s.workers - {w} else s.workers[w := Reporting(id, result.ReplyLost?)])
    case MarkAllFailed(w, result) =>
      var id := s.workers[w].id;
      SetStatus(s, id, Failed, result).(workers :=
        if result.Done? then s.workers - {w} else s.workers[w := Reporting(id, false)])
    case Report(w, result) =>
      SetStatus(s, s.workers[w].id, Failed, result).(workers := s.workers - {w})
    case Crash(w) => s.(workers := s.workers - {w})
  }

  predicate IsRun(states: seq<State>, actions: seq<Action>) {
    && |states| == |actions| + 1 && states[0] == INITIAL
    && forall i :: 0 <= i < |actions| ==> Enabled(states[i], actions[i]) && states[i + 1] == Next(states[i], actions[i])
  }

  // ---------- invariant ----------

  function Reversed(q: seq<Id>): seq<Id> {
    if q == [] then [] else Reversed(q[1..]) + [q[0]]
  }

  /** Jobs are pushed once and leave the queue in the order they entered it. */
  ghost predicate QueueInv(s: State) {
    && NoRepeats(s.pushed)
    && (forall id :: id in s.pushed ==> id in s.jobs && id !in s.created)
    && (forall id :: id in s.created ==> id in s.jobs && s.jobs[id].Queued?)
    && s.pushed == s.popped + Reversed(s.queue)
  }

  /** The status a worker's job has at each point of its work. */
  predicate StatusFits(status: Status, work: Work) {
    match work
    case Fetched(_) => status.Queued?
    case Scanning(_) => status.Running?
    case Reporting(_, completed) => (completed <==> status.Completed?)
  }

  ghost predicate WorkInv(s: State) {
    && (forall w :: w in s.workers ==>
          && s.workers[w].id in s.popped && s.workers[w].id in s.jobs
          && StatusFits(s.jobs[s.workers[w].id], s.workers[w]))
    && (forall w, v :: w in s.workers && v in s.workers && s.workers[w].id == s.workers[v].id ==> w == v)
    && (forall i :: 0 <= i < |s.queue| ==> s.queue[i] in s.jobs && s.jobs[s.queue[i]].Queued?)
  }

  ghost predicate Inv(s: State) {
    QueueInv(s) && WorkInv(s)
  }

  lemma {:induction false} ReversedSnoc(q: seq<Id>)
    requires q != []
    ensures Reversed(q) == [q[|q| - 1]] + Reversed(q[..|q| - 1])
  {
    if |q| <= 1 {
    } else {
      ReversedSnoc(q[1..]);
      assert q[1..][..|q| - 2] == q[..|q| - 1][1..];
    }
  }

  lemma {:induction false} ReversedMembers(q: seq<Id>, id: Id)
    ensures id in Reversed(q) <==> id in q
  {
    if q == [] {
    } else {
      ReversedMembers(q[1..], id);
      assert q == [q[0]] + q[1..];
    }
  }

  /** A popped job is not in the queue any more, and the queue holds no job twice. */
  lemma PoppedOrQueued(s: State)
    requires QueueInv(s)
    ensures forall id :: id in s.popped ==> id !in s.queue
    ensures NoRepeats(s.popped)
    ensures forall id :: id in s.popped || id in s.queue ==> id in s.pushed
  {
    var r := Reversed(s.queue);
    forall id ensures id in s.popped ==> id !in s.queue
              ensures id in s.popped || id in s.queue ==> id in s.pushed {
      ReversedMembers(s.queue, id);
    }
    assert s.popped == s.pushed[..|s.popped|];
  }

  lemma EnqueueKeepsInv(s: State, id: Id)
    requires Inv(s) && Enabled(s, Enqueue(id))
    ensures Inv(Next(s, Enqueue(id)))
  {
    var s' := Next(s, Enqueue(id));
    assert s'.queue[1..] == s.queue;
    assert s'.pushed == s'.popped + Reversed(s'.queue);
    assert forall i :: 0 < i < |s'.queue| ==> s'.queue[i] == s.queue[i - 1];
  }

  lemma DequeueKeepsQueue(s: State, w: nat)
    requires QueueInv(s) && Enabled(s, Dequeue(w))
    ensures QueueInv(Next(s, Dequeue(w)))
  {
    var s' := Next(s, Dequeue(w));
    ReversedSnoc(s.queue);
    assert s.pushed == s'.popped + Reversed(s'.queue);
  }

  lemma DequeueKeepsWork(s: State, w: nat)
    requires WorkInv(s) && Enabled(s, Dequeue(w)) && s.queue[|s.queue| - 1] !in s.popped
    ensures WorkInv(Next(s, Dequeue(w)))
  {
  }

  lemma DequeueKeepsInv(s: State, w: nat)
    requires Inv(s) && Enabled(s, Dequeue(w))
    ensures Inv(Next(s, Dequeue(w)))
  {
    PoppedOrQueued(s);
    DequeueKeepsQueue(s, w);
    DequeueKeepsWork(s, w);
  }

  /** A worker gives its job a new status and moves on to fitting work, or stops. */
  function Moved(s: State, w: nat, status: Status, work: Option<Work>): State
    requires w in s.workers
  {
    s.(jobs := s.jobs[s.workers[w].id := status],
       workers := if work.Some? then s.workers[w := work.value] else s.workers - {w})
  }

  lemma MovedKeepsQueue(s: State, w: nat, status: Status, work: Option<Work>)
    requires QueueInv(s) && w in s.workers && s.workers[w].id in s.jobs && s.workers[w].id !in s.created
    ensures QueueInv(Moved(s, w, status, work))
  {
  }

  lemma MovedKeepsWork(s: State, w: nat, status: Status, work: Option<Work>)
    requires WorkInv(s) && w in s.workers && s.workers[w].id !in s.queue
    requires work.Some? ==> work.value.id == s.workers[w].id && StatusFits(status, work.value)
    ensures WorkInv(Moved(s, w, status, work))
  {
    var id, s' := s.workers[w].id, Moved(s, w, status, work);
    assert forall i :: 0 <= i < |s.queue| ==> s.queue[i] in s.queue && s.queue[i] != id;
    assert forall v :: v in s'.workers && v != w ==> s'.workers[v] == s.workers[v] && s.workers[v].id != id;
  }

  lemma MovedKeepsInv(s: State, w: nat, status: Status, work: Option<Work>)
    requires Inv(s) && w in s.workers
    requires work.Some? ==> work.value.id == s.workers[w].id && StatusFits(status, work.value)
    ensures Inv(Moved(s, w, status, work))
  {
    PoppedOrQueued(s);
    var id := s.workers[w].id;
    assert id in s.popped && id !in s.queue && id !in s.created;
    MovedKeepsQueue(s, w, status, work);
    MovedKeepsWork(s, w, status, work);
  }

  lemma WorkerKeepsInv(s: State, a: Action)
    requires Inv(s) && Enabled(s, a)
    requires a.LoadFails? || a.MarkRunning? || a.MarkCompleted? || a.MarkAllFailed? || a.Report? || a.Crash?
    ensures Inv(Next(s, a))
  {
    var id := s.workers[a.worker].id;
    var s' := Next(s, a);
    var work := if a.worker in s'.workers then Some(s'.workers[a.worker]) else None;
    assert StatusFits(s.jobs[id], s.workers[a.worker]);
    MovedKeepsInv(s, a.worker, s'.jobs[id], work);
    assert s.jobs[id := s.jobs[id]] == s.jobs;
    assert s' == Moved(s, a.worker, s'.jobs[id], work);
  }

  lemma NextKeepsInv(s: State, a: Action)
    requires Inv(s) && Enabled(s, a)
    ensures Inv(Next(s, a))
  {
    match a
    case Create(_) =>
    case Enqueue(id) => EnqueueKeepsInv(s, id);
    case GiveUp(_) =>
    case Dequeue(w) => DequeueKeepsInv(s, w);
    case _ => WorkerKeepsInv(s, a);
  }

  lemma {:induction false} RunKeepsInv(states: seq<State>, actions: seq<Action>, i: nat)
    requires IsRun(states, actions) && i < |states|
    ensures Inv(states[i])
  {
    if i == 0 {
    } else {
      RunKeepsInv(states, actions, i - 1);
      NextKeepsInv(states[i - 1], actions[i - 1]);
    }
  }

  /** Which status each step writes, and to which job. */
  lemma StatusAfter(s: State, a: Action, id: Id)
    requires Enabled(s, a) && (forall w :: w in s.workers ==> s.workers[w].id in s.jobs)
    ensures var s' := Next(s, a);
            var mine := (a.MarkRunning? || a.MarkCompleted? || a.MarkAllFailed? || a.Report?)
                        && id == s.workers[a.worker].id && a.result != NoEffect;
            && (id in s'.jobs <==> id in s.jobs || (a.Create? && a.id == id))
            && (a.Create? && a.id == id ==> s'.jobs[id] == Queued)
            && (mine && a.MarkRunning? ==> s'.jobs[id] == Running)
            && (mine && a.MarkCompleted? ==> s'.jobs[id] == Completed)
            && (mine && (a.MarkAllFailed? || a.Report?) ==> s'.jobs[id] == Failed)
            && (!mine && id in s.jobs ==> s'.jobs[id] == s.jobs[id])
  {
  }

  // ---------- theorems ----------

  lemma {:induction false} ReversedAt(q: seq<Id>, k: nat)
    requires k < |q|
    ensures |Reversed(q)| == |q| && Reversed(q)[|q| - 1 - k] == q[k]
  {
    if |q| <= 1 {
    } else {
      ReversedAt(q[1..], if k > 0 then k - 1 else 0);
    }
  }

  lemma QueueNoRepeats(queue: seq<Id>, popped: seq<Id>, pushed: seq<Id>)
    requires NoRepeats(pushed) && pushed == popped + Reversed(queue)
    ensures NoRepeats(queue)
  {
    forall i, j | 0 <= i < j < |queue| ensures queue[i] != queue[j] {
      ReversedAt(queue, i);
      ReversedAt(queue, j);
      assert pushed[|popped| + |queue| - 1 - j] != pushed[|popped| + |queue| - 1 - i];
    }
  }

  /** In every reachable state a job is in the queue at most once, held by at most one
      worker, never both; and jobs have left the queue in the order they entered it. */
  lemma AtMostOnce(states: seq<State>, actions: seq<Action>, i: nat)
    requires IsRun(states, actions) && i < |states|
    ensures var s := states[i];
            && NoRepeats(s.queue) && NoRepeats(s.popped) && s.popped <= s.pushed
            && (forall w, v :: w in s.workers && v in s.workers && s.workers[w].id == s.workers[v].id ==> w == v)
            && (forall w :: w in s.workers ==> s.workers[w].id !in s.queue)
  {
    var s := states[i];
    RunKeepsInv(states, actions, i);
    PoppedOrQueued(s);
    QueueNoRepeats(s.queue, s.popped, s.pushed);
  }

  predicate Forward(before: Status, after: Status) {
    || before == after
    || (before.Queued? && (after.Running? || after.Failed?))
    || (before.Running? && Terminal(after))
  }

  /** The one step that can go wrong: a worker reports a failure for a job whose
      completion had taken effect although its reply was lost. */
  predicate LateFailure(s: State, a: Action, id: Id) {
    && a.Report? && !a.result.NoEffect? && a.worker in s.workers
    && s.workers[a.worker].Reporting? && s.workers[a.worker].id == id && s.workers[a.worker].completed
  }

  /** In every run, each step moves a job's status only forward (queued, running, then
      completed or failed, or straight from queued to failed), except exactly when a
      worker reports failure after a completion whose reply was lost; that step turns
      completed into failed. */
  lemma StatusMovesForwardIff(states: seq<State>, actions: seq<Action>, i: nat, id: Id)
    requires IsRun(states, actions) && i < |actions| && id in states[i].jobs
    ensures id in states[i + 1].jobs
    ensures !Forward(states[i].jobs[id], states[i + 1].jobs[id]) <==> LateFailure(states[i], actions[i], id)
    ensures LateFailure(states[i], actions[i], id) ==> states[i].jobs[id].Completed? && states[i + 1].jobs[id].Failed?
  {
    RunKeepsInv(states, actions, i);
    var s, a := states[i], actions[i];
    if a.MarkRunning? || a.MarkCompleted? || a.MarkAllFailed? || a.Report? {
      assert StatusFits(s.jobs[s.workers[a.worker].id], s.workers[a.worker]);
    }
  }

  /** The completion of this job takes effect, but its worker does not learn of it. */
  predicate CompletionReplyLost(s: State, a: Action, id: Id) {
    a.MarkCompleted? && a.result.ReplyLost? && a.worker in s.workers && s.workers[a.worker].id == id
  }

  lemma {:induction false} NoLostCompletion(states: seq<State>, actions: seq<Action>, i: nat, id: Id)
    requires IsRun(states, actions) && i < |states|
    requires forall k :: 0 <= k < |actions| ==> !CompletionReplyLost(states[k], actions[k], id)
    ensures forall w :: w in states[i].workers && states[i].workers[w].id == id ==>
              !(states[i].workers[w].Reporting? && states[i].workers[w].completed)
  {
    if i == 0 {
    } else {
      NoLostCompletion(states, actions, i - 1, id);
      assert states[i] == Next(states[i - 1], actions[i - 1]);
    }
  }

  /** While the reply to a job's own completion is not lost, its terminal status never
      changes, whatever happens to other jobs. */
  lemma {:induction false} TerminalForever(states: seq<State>, actions: seq<Action>, i: nat, j: nat, id: Id)
    requires IsRun(states, actions) && i <= j < |states| && id in states[i].jobs && Terminal(states[i].jobs[id])
    requires forall k :: 0 <= k < |actions| ==> !CompletionReplyLost(states[k], actions[k], id)
    ensures id in states[j].jobs && states[j].jobs[id] == states[i].jobs[id]
  {
    if i == j {
    } else {
      TerminalForever(states, actions, i, j - 1, id);
      StatusMovesForwardIff(states, actions, j - 1, id);
      NoLostCompletion(states, actions, j - 1, id);
    }
  }

  lemma ExtendRun(states: seq<State>, actions: seq<Action>, a: Action, s: State)
    requires IsRun(states, actions) && Enabled(states[|actions|], a) && s == Next(states[|actions|], a)
    ensures IsRun(states + [s], actions + [a])
  {
  }

  /** A job taken off the queue and run to the point where its completion is written. */
  lemma JobInProgress(id: Id) returns (states: seq<State>, actions: seq<Action>)
    ensures IsRun(states, actions) && |actions| == 4
    ensures states[4] == State(map[id := Running], {}, [], map[0 := Scanning(id)], [id], [id])
  {
    var s1 := Next(INITIAL, Create(id));
    ExtendRun([INITIAL], [], Create(id), s1);
    var s2 := Next(s1, Enqueue(id));
    ExtendRun([INITIAL] + [s1], [] + [Create(id)], Enqueue(id), s2);
    states, actions := [INITIAL, s1, s2], [Create(id), Enqueue(id)];
    assert [INITIAL] + [s1] + [s2] == states && [] + [Create(id)] + [Enqueue(id)] == actions;
    var s3 := State(map[id := Queued], {}, [], map[0 := Fetched(id)], [id], [id]);
    ExtendRun(states, actions, Dequeue(0), s3);
    states, actions := states + [s3], actions + [Dequeue(0)];
    var s4 := s3.(jobs := map[id := Running], workers := map[0 := Scanning(id)]);
    ExtendRun(states, actions, MarkRunning(0, Done), s4);
    states, actions := states + [s4], actions + [MarkRunning(0, Done)];
  }

  /** Losing that reply does break it: a completed job ends up failed. */
  lemma LostReplyBreaksTerminal(id: Id) returns (states: seq<State>, actions: seq<Action>)
    ensures IsRun(states, actions) && |states| == 7
    ensures id in states[5].jobs && states[5].jobs[id].Completed?
    ensures id in states[6].jobs && states[6].jobs[id].Failed?
  {
    states, actions := JobInProgress(id);
    var s5 := Next(states[4], MarkCompleted(0, ReplyLost));
    ExtendRun(states, actions, MarkCompleted(0, ReplyLost), s5);
    states, actions := states + [s5], actions + [MarkCompleted(0, ReplyLost)];
    var s6 := Next(s5, Report(0, Done));
    ExtendRun(states, actions, Report(0, Done), s6);
    states, actions := states + [s6], actions + [Report(0, Done)];
  }
}
