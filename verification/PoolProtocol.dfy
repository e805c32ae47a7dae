/** The queues of a browser pool: routing, enqueueing, taking, and the shutdown sentinels. */
module PoolProtocol {
  import opened ContextHistory
  import opened Sequences

  const QUEUE_SIZE := 128

  datatype Task = Task(number: nat, session: Session, profile: string)

  datatype Item = Work(task: Task) | Sentinel

  datatype Status = Running | Stopped | Crashed

  datatype Inbox = Inbox(taken: seq<Item>, waiting: seq<Item>, status: Status)

  datatype Assignment = Assignment(worker: nat, task: Task)

  /** `accepted` logs the requests the pool took on, in order. */
  datatype Pool = Pool(closed: bool, inboxes: seq<Inbox>, roundRobin: nat, accepted: seq<Assignment>)

  const NEW_INBOX := Inbox([], [], Running)

  function NewPool(workers: nat): Pool {
    Pool(false, seq(workers, _ => NEW_INBOX), 0, [])
  }

  ghost function Stream(inbox: Inbox): seq<Item> {
    inbox.taken + inbox.waiting
  }

  /** What was assigned to one worker, in the order it was accepted. */
  ghost function Assigned(accepted: seq<Assignment>, worker: nat): seq<Item> {
    if accepted == [] then []
    else
      var last := accepted[|accepted| - 1];
      Assigned(accepted[..|accepted| - 1], worker) + if last.worker == worker then [Work(last.task)] else []
  }

  /**
   * A queue carried what was assigned to its worker and then at most one sentinel, once the pool is closed;
   * the worker has stopped exactly if it took the sentinel.
   */
  ghost predicate InboxValid(inbox: Inbox, given: seq<Item>, closed: bool) {
    && |inbox.waiting| <= QUEUE_SIZE
    && (Stream(inbox) == given || (closed && Stream(inbox) == given + [Sentinel]))
    && (inbox.status.Stopped? <==> inbox.taken == given + [Sentinel])
  }

  ghost predicate OnlyWork(items: seq<Item>) {
    forall item :: item in items ==> item.Work?
  }

  ghost predicate Routed(accepted: seq<Assignment>, workers: nat, digest: Session -> nat)
    requires workers > 0
  {
    forall k :: 0 <= k < |accepted| ==>
      && accepted[k].worker < workers && accepted[k].task.number == k
      && (accepted[k].task.session != "" ==> accepted[k].worker == digest(accepted[k].task.session) % workers)
  }

  ghost predicate PoolValid(pool: Pool, digest: Session -> nat) {
    && pool.inboxes != []
    && Routed(pool.accepted, |pool.inboxes|, digest)
    && forall w :: 0 <= w < |pool.inboxes| ==> InboxValid(pool.inboxes[w], Assigned(pool.accepted, w), pool.closed)
  }

  // ----- Steps -----

  function Put(pool: Pool, worker: nat, item: Item): Pool
    requires worker < |pool.inboxes|
  {
    var inbox := pool.inboxes[worker];
    pool.(inboxes := pool.inboxes[worker := inbox.(waiting := inbox.waiting + [item])])
  }

  function Accept(pool: Pool, worker: nat, session: Session, profile: string): Pool
    requires worker < |pool.inboxes|
  {
    var task := Task(|pool.accepted|, session, profile);
    Put(pool, worker, Work(task)).(accepted := pool.accepted + [Assignment(worker, task)])
  }

  /** The worker takes the first item of its queue; at the sentinel it stops. */
  function Take(pool: Pool, worker: nat): Pool
    requires worker < |pool.inboxes| && pool.inboxes[worker].waiting != []
  {
    var inbox := pool.inboxes[worker];
    var first := inbox.waiting[0];
    var status := if first.Sentinel? then Stopped else inbox.status;
    pool.(inboxes := pool.inboxes[worker := Inbox(inbox.taken + [first], inbox.waiting[1..], status)])
  }

  function Crash(pool: Pool, worker: nat): Pool
    requires worker < |pool.inboxes|
  {
    pool.(inboxes := pool.inboxes[worker := pool.inboxes[worker].(status := Crashed)])
  }

  lemma NewPoolValid(workers: nat, digest: Session -> nat)
    requires workers > 0
    ensures PoolValid(NewPool(workers), digest) && |NewPool(workers).inboxes| == workers
  {
    assert Stream(NEW_INBOX) == [];
  }

  lemma AssignedMore(accepted: seq<Assignment>, last: Assignment, worker: nat)
    ensures Assigned(accepted + [last], worker) ==
      Assigned(accepted, worker) + if last.worker == worker then [Work(last.task)] else []
  {
    assert (accepted + [last])[..|accepted|] == accepted;
  }

  lemma {:induction false} AssignedWork(accepted: seq<Assignment>, worker: nat)
    ensures OnlyWork(Assigned(accepted, worker))
  {
    if accepted != [] {
      AssignedWork(accepted[..|accepted| - 1], worker);
    }
  }

  lemma StreamPut(inbox: Inbox, item: Item)
    ensures Stream(inbox.(waiting := inbox.waiting + [item])) == Stream(inbox) + [item]
  {
  }

  lemma StreamTake(inbox: Inbox, status: Status)
    requires inbox.waiting != []
    ensures Stream(Inbox(inbox.taken + [inbox.waiting[0]], inbox.waiting[1..], status)) == Stream(inbox)
  {
  }

  lemma AcceptKeeps(pool: Pool, digest: Session -> nat, worker: nat, session: Session, profile: string)
    requires PoolValid(pool, digest) && !pool.closed && worker < |pool.inboxes|
    requires |pool.inboxes[worker].waiting| < QUEUE_SIZE
    requires session != "" ==> worker == digest(session) % |pool.inboxes|
    ensures PoolValid(Accept(pool, worker, session, profile), digest)
  {
    var after := Accept(pool, worker, session, profile);
    var last := Assignment(worker, Task(|pool.accepted|, session, profile));
    forall w | 0 <= w < |after.inboxes|
      ensures InboxValid(after.inboxes[w], Assigned(after.accepted, w), after.closed)
    {
      AssignedMore(pool.accepted, last, w);
      AssignedWork(pool.accepted, w);
      StreamPut(pool.inboxes[w], Work(last.task));
      assert InboxValid(pool.inboxes[w], Assigned(pool.accepted, w), false);
    }
  }

  lemma TakeInbox(inbox: Inbox, given: seq<Item>, closed: bool)
    requires InboxValid(inbox, given, closed) && OnlyWork(given)
    requires inbox.status.Running? && inbox.waiting != []
    ensures var first := inbox.waiting[0];
      var after := Inbox(inbox.taken + [first], inbox.waiting[1..], if first.Sentinel? then Stopped else Running);
      InboxValid(after, given, closed) && (first.Sentinel? ==> after.waiting == []) && (first.Work? ==> first in given)
  {
    var first := inbox.waiting[0];
    StreamTake(inbox, Running);
    StreamTake(inbox, Stopped);
    var k := |inbox.taken|;
    assert Stream(inbox)[k] == first;
    assert inbox.taken == Stream(inbox)[..k];
    if k < |given| {
      assert given[k] == first && first in given;
      assert |inbox.taken + [first]| < |given + [Sentinel]|;
    } else {
      assert k == |given| && inbox.taken == given;
    }
  }

  lemma TakeKeeps(pool: Pool, digest: Session -> nat, worker: nat)
    requires PoolValid(pool, digest) && worker < |pool.inboxes|
    requires pool.inboxes[worker].status.Running? && pool.inboxes[worker].waiting != []
    ensures PoolValid(Take(pool, worker), digest)
    ensures var first := pool.inboxes[worker].waiting[0]; first.Work? ==> first in Assigned(pool.accepted, worker)
  {
    AssignedWork(pool.accepted, worker);
    TakeInbox(pool.inboxes[worker], Assigned(pool.accepted, worker), pool.closed);
  }

  lemma CrashKeeps(pool: Pool, digest: Session -> nat, worker: nat)
    requires PoolValid(pool, digest) && worker < |pool.inboxes| && pool.inboxes[worker].status.Running?
    ensures PoolValid(Crash(pool, worker), digest)
  {
    var inbox := pool.inboxes[worker];
    assert Stream(inbox.(status := Crashed)) == Stream(inbox);
  }

  lemma CloseKeeps(pool: Pool, digest: Session -> nat)
    requires PoolValid(pool, digest)
    ensures PoolValid(pool.(closed := true), digest)
  {
  }

  lemma SentinelKeeps(pool: Pool, digest: Session -> nat, worker: nat)
    requires PoolValid(pool, digest) && pool.closed && worker < |pool.inboxes|
    requires Stream(pool.inboxes[worker]) == Assigned(pool.accepted, worker)
    requires |pool.inboxes[worker].waiting| < QUEUE_SIZE
    ensures PoolValid(Put(pool, worker, Sentinel), digest)
    ensures Stream(Put(pool, worker, Sentinel).inboxes[worker]) == Assigned(pool.accepted, worker) + [Sentinel]
  {
    var inbox := pool.inboxes[worker];
    StreamPut(inbox, Sentinel);
    assert InboxValid(inbox, Assigned(pool.accepted, worker), true);
  }

  /**
   * Workers proceed: they only take more of what their queues carry, which is unchanged like everything else.  A
   * worker that no longer runs makes no progress.
   */
  ghost predicate Proceeds(before: Pool, after: Pool) {
    && after.closed == before.closed && after.accepted == before.accepted && after.roundRobin == before.roundRobin
    && |after.inboxes| == |before.inboxes|
    && (forall w :: 0 <= w < |before.inboxes| ==>
      Stream(after.inboxes[w]) == Stream(before.inboxes[w]) && before.inboxes[w].taken <= after.inboxes[w].taken)
    && forall w :: 0 <= w < |before.inboxes| && !before.inboxes[w].status.Running? ==> after.inboxes[w] == before.inboxes[w]
  }

  lemma TakeProceeds(pool: Pool, worker: nat)
    requires worker < |pool.inboxes| && pool.inboxes[worker].waiting != [] && pool.inboxes[worker].status.Running?
    ensures Proceeds(pool, Take(pool, worker))
  {
    var inbox := pool.inboxes[worker];
    StreamTake(inbox, inbox.status);
    StreamTake(inbox, Stopped);
  }

  lemma CrashProceeds(pool: Pool, worker: nat)
    requires worker < |pool.inboxes| && pool.inboxes[worker].status.Running?
    ensures Proceeds(pool, Crash(pool, worker))
  {
    var inbox := pool.inboxes[worker];
    assert Stream(inbox.(status := Crashed)) == Stream(inbox);
  }

  /** The queue of `worker` ends in the sentinel. */
  ghost predicate Ended(pool: Pool, worker: nat)
    requires worker < |pool.inboxes|
  {
    Stream(pool.inboxes[worker]) == Assigned(pool.accepted, worker) + [Sentinel]
  }

  /** The worker is gone and its queue is full: `close` can never put its sentinel there. */
  ghost predicate Stuck(pool: Pool, worker: nat)
    requires worker < |pool.inboxes|
  {
    !pool.inboxes[worker].status.Running? && |pool.inboxes[worker].waiting| >= QUEUE_SIZE
  }

  lemma StaysStuck(before: Pool, after: Pool, worker: nat)
    requires Proceeds(before, after) && worker < |before.inboxes| && Stuck(before, worker)
    ensures Stuck(after, worker)
  {
  }

  /** A running worker with a full queue makes room with the next item it takes. */
  lemma TakeMakesRoom(pool: Pool, digest: Session -> nat, worker: nat)
    requires PoolValid(pool, digest) && worker < |pool.inboxes| && pool.inboxes[worker].waiting != []
    ensures |Take(pool, worker).inboxes[worker].waiting| < QUEUE_SIZE
  {
    assert InboxValid(pool.inboxes[worker], Assigned(pool.accepted, worker), pool.closed);
  }

  lemma SentinelKeepsStuck(pool: Pool, sealed: nat, worker: nat)
    requires sealed < |pool.inboxes| && worker < |pool.inboxes| && sealed != worker && Stuck(pool, worker)
    ensures Stuck(Put(pool, sealed, Sentinel), worker)
  {
  }

  /** `close` has put its sentinel into the first `count` queues. */
  ghost predicate Sealed(pool: Pool, count: nat) {
    && count <= |pool.inboxes|
    && (forall w :: 0 <= w < count ==> Ended(pool, w))
    && forall w :: count <= w < |pool.inboxes| ==> Stream(pool.inboxes[w]) == Assigned(pool.accepted, w)
  }

  lemma OpenIsUnsealed(pool: Pool, digest: Session -> nat)
    requires PoolValid(pool, digest) && !pool.closed
    ensures Sealed(pool.(closed := true), 0)
  {
    forall w | 0 <= w < |pool.inboxes| ensures Stream(pool.inboxes[w]) == Assigned(pool.accepted, w) {
      assert InboxValid(pool.inboxes[w], Assigned(pool.accepted, w), false);
    }
  }

  lemma SealedEnds(pool: Pool)
    requires Sealed(pool, |pool.inboxes|)
    ensures forall w :: 0 <= w < |pool.inboxes| ==> Ended(pool, w)
  {
  }

  lemma ProceedsSealed(before: Pool, after: Pool, count: nat)
    requires Proceeds(before, after) && Sealed(before, count)
    ensures Sealed(after, count)
  {
    forall w | 0 <= w < count ensures Ended(after, w) {
      assert Ended(before, w);
    }
  }

  lemma SealedMore(pool: Pool, digest: Session -> nat, count: nat)
    requires PoolValid(pool, digest) && pool.closed && Sealed(pool, count) && count < |pool.inboxes|
    requires |pool.inboxes[count].waiting| < QUEUE_SIZE
    ensures PoolValid(Put(pool, count, Sentinel), digest)
    ensures Sealed(Put(pool, count, Sentinel), count + 1)
  {
    SentinelKeeps(pool, digest, count);
    forall w | 0 <= w < count ensures Ended(Put(pool, count, Sentinel), w) {
      assert Ended(pool, w);
    }
  }

  lemma ProceedsNowhere(pool: Pool)
    ensures Proceeds(pool, pool)
  {
  }

  // ----- When a pool can be closed -----

  /** A running worker takes the next item of its queue, or dies. */
  ghost predicate WorkerStep(before: Pool, after: Pool, w: nat)
    requires w < |before.inboxes|
  {
    && before.inboxes[w].status.Running?
    && (after == Crash(before, w) || (before.inboxes[w].waiting != [] && after == Take(before, w)))
  }

  /** `close` while it holds the lock: the queues, and how many of them have their sentinel. */
  datatype Closing = Closing(pool: Pool, sealed: nat)

  /** The next queue has room for its sentinel and gets it. */
  ghost predicate SealStep(before: Closing, after: Closing) {
    && before.sealed < |before.pool.inboxes| && |before.pool.inboxes[before.sealed].waiting| < QUEUE_SIZE
    && after == Closing(Put(before.pool, before.sealed, Sentinel), before.sealed + 1)
  }

  ghost predicate ClosingStep(before: Closing, after: Closing) {
    || SealStep(before, after)
    || (after.sealed == before.sealed
        && exists w :: 0 <= w < |before.pool.inboxes| && WorkerStep(before.pool, after.pool, w))
  }

  ghost predicate ClosingRun(run: seq<Closing>) {
    run != [] && forall k :: 0 < k < |run| ==> ClosingStep(run[k - 1], run[k])
  }

  ghost predicate ClosingValid(state: Closing, digest: Session -> nat) {
    && PoolValid(state.pool, digest) && state.pool.closed && Sealed(state.pool, state.sealed)
  }

  ghost predicate AllEnded(pool: Pool) {
    forall w :: 0 <= w < |pool.inboxes| ==> Ended(pool, w)
  }

  ghost predicate CanFinish(state: Closing) {
    exists run: seq<Closing> :: ClosingRun(run) && run[0] == state && AllEnded(run[|run| - 1].pool)
  }

  /** Some queue that still needs its sentinel is full and its worker is gone. */
  ghost predicate Blocked(state: Closing) {
    exists w :: state.sealed <= w < |state.pool.inboxes| && Stuck(state.pool, w)
  }

  lemma UnsealedNotEnded(state: Closing, digest: Session -> nat)
    requires ClosingValid(state, digest) && state.sealed < |state.pool.inboxes|
    ensures !AllEnded(state.pool)
  {
    assert !Ended(state.pool, state.sealed);
  }

  lemma StepKeeps(before: Closing, after: Closing, digest: Session -> nat)
    requires ClosingValid(before, digest) && ClosingStep(before, after)
    ensures ClosingValid(after, digest) && |after.pool.inboxes| == |before.pool.inboxes|
  {
    hide PoolValid, Sealed, Proceeds;
    if SealStep(before, after) {
      SealedMore(before.pool, digest, before.sealed);
    } else {
      var w :| 0 <= w < |before.pool.inboxes| && WorkerStep(before.pool, after.pool, w);
      if after.pool == Crash(before.pool, w) {
        CrashKeeps(before.pool, digest, w);
        CrashProceeds(before.pool, w);
      } else {
        TakeKeeps(before.pool, digest, w);
        TakeProceeds(before.pool, w);
      }
      ProceedsSealed(before.pool, after.pool, before.sealed);
    }
  }

  lemma StepKeepsBlocked(before: Closing, after: Closing)
    requires ClosingStep(before, after) && Blocked(before)
    ensures Blocked(after)
  {
    var w :| before.sealed <= w < |before.pool.inboxes| && Stuck(before.pool, w);
    if SealStep(before, after) {
      assert w != before.sealed;
      SentinelKeepsStuck(before.pool, before.sealed, w);
    }
    assert Stuck(after.pool, w);
  }

  /** The next sentinel is put where there is room. */
  lemma SealKeeps(pool: Pool, digest: Session -> nat, w: nat)
    requires PoolValid(pool, digest) && pool.closed && Sealed(pool, w) && w < |pool.inboxes|
    requires |pool.inboxes[w].waiting| < QUEUE_SIZE
    ensures PoolValid(Put(pool, w, Sentinel), digest) && Sealed(Put(pool, w, Sentinel), w + 1)
    ensures |Put(pool, w, Sentinel).inboxes| == |pool.inboxes|
    ensures Put(pool, w, Sentinel).closed && Put(pool, w, Sentinel).accepted == pool.accepted
    ensures Blocked(Closing(pool, w)) ==> Blocked(Closing(Put(pool, w, Sentinel), w + 1))
  {
    hide PoolValid, Sealed, Blocked;
    SealedMore(pool, digest, w);
    if Blocked(Closing(pool, w)) {
      StepKeepsBlocked(Closing(pool, w), Closing(Put(pool, w, Sentinel), w + 1));
    }
  }

  lemma {:induction false} BlockedForever(run: seq<Closing>, digest: Session -> nat)
    requires ClosingRun(run) && ClosingValid(run[0], digest) && Blocked(run[0])
    ensures !AllEnded(run[|run| - 1].pool)
    decreases |run|
  {
    if |run| == 1 {
      UnsealedNotEnded(run[0], digest);
    } else {
      hide ClosingValid, Blocked, ClosingStep, AllEnded;
      assert ClosingStep(run[0], run[1]);
      StepKeeps(run[0], run[1], digest);
      StepKeepsBlocked(run[0], run[1]);
      RunTail(run);
      BlockedForever(run[1..], digest);
    }
  }

  lemma RunTail(run: seq<Closing>)
    requires ClosingRun(run) && |run| > 1
    ensures ClosingRun(run[1..])
  {
    forall k | 0 < k < |run[1..]| ensures ClosingStep(run[1..][k - 1], run[1..][k]) {
      assert ClosingStep(run[k], run[k + 1]);
    }
  }

  lemma OneStepMore(state: Closing, next: Closing)
    requires ClosingStep(state, next) && CanFinish(next)
    ensures CanFinish(state)
  {
    hide AllEnded, ClosingStep;
    var rest: seq<Closing> :| ClosingRun(rest) && rest[0] == next && AllEnded(rest[|rest| - 1].pool);
    var run := [state] + rest;
    forall k | 0 < k < |run| ensures ClosingStep(run[k - 1], run[k]) {
      if k > 1 {
        assert ClosingStep(rest[k - 2], rest[k - 1]);
      }
    }
    assert run[|run| - 1] == rest[|rest| - 1];
  }

  lemma StaysUnblocked(state: Closing, next: Closing)
    requires !Blocked(state) && state.sealed < |state.pool.inboxes|
    requires SealStep(state, next)
      || (state.pool.inboxes[state.sealed].waiting != [] && next == Closing(Take(state.pool, state.sealed), state.sealed)
          && |next.pool.inboxes[state.sealed].waiting| < QUEUE_SIZE)
    ensures !Blocked(next)
  {
    forall w | next.sealed <= w < |next.pool.inboxes| ensures !Stuck(next.pool, w) {
      assert !Stuck(state.pool, w);
    }
  }

  /** One sentinel after another; where a queue is full, its worker runs and takes one item first. */
  lemma {:induction false} UnblockedFinishes(state: Closing, digest: Session -> nat)
    requires ClosingValid(state, digest) && !Blocked(state)
    ensures CanFinish(state)
    decreases |state.pool.inboxes| - state.sealed,
              state.sealed < |state.pool.inboxes| && |state.pool.inboxes[state.sealed].waiting| >= QUEUE_SIZE
  {
    var pool, count := state.pool, state.sealed;
    hide CanFinish;
    if count == |pool.inboxes| {
      SealedEnds(pool);
      FinishedAlready(state);
    } else if |pool.inboxes[count].waiting| < QUEUE_SIZE {
      var next := Closing(Put(pool, count, Sentinel), count + 1);
      assert SealStep(state, next);
      StepKeeps(state, next, digest);
      StaysUnblocked(state, next);
      UnblockedFinishes(next, digest);
      OneStepMore(state, next);
    } else {
      var next := Closing(Take(pool, count), count);
      assert !Stuck(pool, count);
      assert WorkerStep(pool, next.pool, count);
      StepKeeps(state, next, digest);
      TakeMakesRoom(pool, digest, count);
      StaysUnblocked(state, next);
      UnblockedFinishes(next, digest);
      OneStepMore(state, next);
    }
  }

  lemma FinishedAlready(state: Closing)
    requires AllEnded(state.pool)
    ensures CanFinish(state)
  {
    assert ClosingRun([state]) && [state][0] == state;
  }

  /**
   * At any point of `close` it can still finish, with a sentinel at the end of every queue, exactly if no
   * queue that waits for its sentinel is full and left by its worker.
   */
  lemma FinishesUnlessBlocked(state: Closing, digest: Session -> nat)
    requires ClosingValid(state, digest)
    ensures CanFinish(state) <==> !Blocked(state)
  {
    if Blocked(state) && CanFinish(state) {
      var run: seq<Closing> :| ClosingRun(run) && run[0] == state && AllEnded(run[|run| - 1].pool);
      BlockedForever(run, digest);
    }
    if !Blocked(state) {
      UnblockedFinishes(state, digest);
    }
  }

  /** `close` of an open pool can finish exactly if no worker is gone and left a full queue. */
  lemma CloseCanFinish(pool: Pool, digest: Session -> nat)
    requires PoolValid(pool, digest) && !pool.closed
    ensures CanFinish(Closing(pool.(closed := true), 0)) <==> forall w :: 0 <= w < |pool.inboxes| ==> !Stuck(pool, w)
  {
    var state := Closing(pool.(closed := true), 0);
    CloseKeeps(pool, digest);
    OpenIsUnsealed(pool, digest);
    FinishesUnlessBlocked(state, digest);
    assert forall w :: 0 <= w < |pool.inboxes| ==> (Stuck(pool, w) <==> Stuck(state.pool, w));
  }

  /** A worker only takes requests of sessions that are routed to it. */
  lemma TakenIsRouted(pool: Pool, digest: Session -> nat, worker: nat)
    requires PoolValid(pool, digest) && worker < |pool.inboxes|
    requires pool.inboxes[worker].status.Running? && pool.inboxes[worker].waiting != []
    requires pool.inboxes[worker].waiting[0].Work?
    ensures var task := pool.inboxes[worker].waiting[0].task;
      task.session != "" ==> digest(task.session) % |pool.inboxes| == worker
  {
    TakeKeeps(pool, digest, worker);
    AssignedFrom(pool.accepted, worker, pool.inboxes[worker].waiting[0].task);
  }

  lemma {:induction false} AssignedFrom(accepted: seq<Assignment>, worker: nat, task: Task)
    requires Work(task) in Assigned(accepted, worker)
    ensures exists k :: 0 <= k < |accepted| && accepted[k] == Assignment(worker, task)
  {
    var last := |accepted| - 1;
    if accepted[last] != Assignment(worker, task) {
      AssignedFrom(accepted[..last], worker, task);
      var k :| 0 <= k < last && accepted[..last][k] == Assignment(worker, task);
      assert accepted[k] == Assignment(worker, task);
    }
  }

  lemma ProceedsTwice(before: Pool, between: Pool, after: Pool)
    requires Proceeds(before, between) && Proceeds(between, after)
    ensures Proceeds(before, after)
  {
  }

  // ----- What the protocol guarantees -----

  /** No task follows a sentinel, and there is none before the pool is closed. */
  lemma NothingAfterSentinel(pool: Pool, digest: Session -> nat, worker: nat, i: nat)
    requires PoolValid(pool, digest) && worker < |pool.inboxes|
    requires i < |Stream(pool.inboxes[worker])| && Stream(pool.inboxes[worker])[i].Sentinel?
    ensures pool.closed && i == |Stream(pool.inboxes[worker])| - 1
    ensures forall k :: 0 <= k < |pool.accepted| && pool.accepted[k].worker == worker ==>
      Work(pool.accepted[k].task) in Stream(pool.inboxes[worker])[..i]
  {
    var given := Assigned(pool.accepted, worker);
    AssignedWork(pool.accepted, worker);
    var stream := Stream(pool.inboxes[worker]);
    assert InboxValid(pool.inboxes[worker], given, pool.closed);
    forall k | 0 <= k < |given| ensures stream[k].Work? {
      assert stream[k] == given[k] && given[k] in given;
    }
    assert stream[..i] == given;
    forall k | 0 <= k < |pool.accepted| && pool.accepted[k].worker == worker
      ensures Work(pool.accepted[k].task) in given
    {
      AssignedTask(pool.accepted, worker, k);
    }
  }

  lemma {:induction false} AssignedTask(accepted: seq<Assignment>, worker: nat, k: nat)
    requires k < |accepted| && accepted[k].worker == worker
    ensures Work(accepted[k].task) in Assigned(accepted, worker)
  {
    if k < |accepted| - 1 {
      AssignedTask(accepted[..|accepted| - 1], worker, k);
    }
  }

  /** A worker that stopped has taken every request that was ever assigned to it, in order. */
  lemma StoppedTookAll(pool: Pool, digest: Session -> nat, worker: nat)
    requires PoolValid(pool, digest) && worker < |pool.inboxes| && pool.inboxes[worker].status.Stopped?
    ensures pool.inboxes[worker].taken == Assigned(pool.accepted, worker) + [Sentinel]
    ensures pool.inboxes[worker].waiting == []
  {
    assert InboxValid(pool.inboxes[worker], Assigned(pool.accepted, worker), pool.closed);
  }

  ghost function SessionItems(items: seq<Item>, session: Session): seq<Task> {
    if items == [] then []
    else
      var last := items[|items| - 1];
      SessionItems(items[..|items| - 1], session) + if last.Work? && last.task.session == session then [last.task] else []
  }

  ghost function SessionAccepted(accepted: seq<Assignment>, session: Session): seq<Task> {
    if accepted == [] then []
    else
      var last := accepted[|accepted| - 1];
      SessionAccepted(accepted[..|accepted| - 1], session) + if last.task.session == session then [last.task] else []
  }

  lemma SessionItemsMore(items: seq<Item>, last: Item, session: Session)
    ensures SessionItems(items + [last], session) ==
      SessionItems(items, session) + if last.Work? && last.task.session == session then [last.task] else []
  {
    assert (items + [last])[..|items|] == items;
  }

  lemma {:induction false} SessionItemsAppend(earlier: seq<Item>, later: seq<Item>, session: Session)
    ensures SessionItems(earlier + later, session) == SessionItems(earlier, session) + SessionItems(later, session)
  {
    if later == [] {
      assert earlier + later == earlier;
    } else {
      hide SessionItems;
      var before, last := later[..|later| - 1], later[|later| - 1];
      var own := if last.Work? && last.task.session == session then [last.task] else [];
      SessionItemsAppend(earlier, before, session);
      SplitLast(later);
      AppendAssociative(earlier, before, [last]);
      SessionItemsMore(earlier + before, last, session);
      SessionItemsMore(before, last, session);
      AppendAssociative(SessionItems(earlier, session), SessionItems(before, session), own);
    }
  }

  lemma SessionAcceptedMore(accepted: seq<Assignment>, last: Assignment, session: Session)
    ensures SessionAccepted(accepted + [last], session) ==
      SessionAccepted(accepted, session) + if last.task.session == session then [last.task] else []
  {
    assert (accepted + [last])[..|accepted|] == accepted;
  }

  /** Every assignment of the session went to `route`. */
  ghost predicate AllTo(accepted: seq<Assignment>, session: Session, route: nat) {
    forall k :: 0 <= k < |accepted| && accepted[k].task.session == session ==> accepted[k].worker == route
  }

  lemma {:induction false} SessionAssigned(accepted: seq<Assignment>, route: nat, worker: nat, session: Session)
    requires AllTo(accepted, session, route)
    ensures SessionItems(Assigned(accepted, worker), session) ==
      if worker == route then SessionAccepted(accepted, session) else []
  {
    if accepted != [] {
      var before, last := accepted[..|accepted| - 1], accepted[|accepted| - 1];
      SessionAssigned(before, route, worker, session);
      SplitLast(accepted);
      hide Assigned, SessionItems, SessionAccepted;
      AssignedMore(before, last, worker);
      SessionAcceptedMore(before, last, session);
      if last.worker == worker {
        SessionItemsMore(Assigned(before, worker), Work(last.task), session);
      } else {
        assert Assigned(accepted, worker) == Assigned(before, worker);
      }
    }
  }

  /**
   * All requests of one session go through one worker in the order they were accepted: what that worker
   * took and what still waits for it are together exactly the session's requests, and no other worker has any.
   */
  lemma SessionSticky(pool: Pool, digest: Session -> nat, session: Session, worker: nat)
    requires PoolValid(pool, digest) && session != "" && worker < |pool.inboxes|
    ensures var inbox := pool.inboxes[worker];
      SessionItems(inbox.taken, session) + SessionItems(inbox.waiting, session) ==
        if worker == digest(session) % |pool.inboxes| then SessionAccepted(pool.accepted, session) else []
  {
    var inbox := pool.inboxes[worker];
    var given := Assigned(pool.accepted, worker);
    assert InboxValid(inbox, given, pool.closed);
    SessionItemsAppend(inbox.taken, inbox.waiting, session);
    SessionItemsMore(given, Sentinel, session);
    SessionAssigned(pool.accepted, digest(session) % |pool.inboxes|, worker, session);
  }

  // ----- What a worker did for the requests it took -----

  datatype Asked = Asked(session: Session, profile: string)

  /** The session requests among the items a worker took, in order. */
  ghost function TakenFor(items: seq<Item>): seq<Asked> {
    if items == [] then []
    else
      var last := items[|items| - 1];
      TakenFor(items[..|items| - 1])
      + if last.Work? && last.task.session != "" then [Asked(last.task.session, last.task.profile)] else []
  }

  /** The contexts that were handed out, in order. */
  ghost function HandedOut(history: seq<Event>): seq<Asked> {
    if history == [] then []
    else
      var last := history[|history| - 1];
      HandedOut(history[..|history| - 1]) + if last.Used? then [Asked(last.session, last.profile)] else []
  }

  ghost predicate Subsequence(some: seq<Asked>, all: seq<Asked>)
    decreases |all|
  {
    some == [] || (all != [] && (
      || Subsequence(some, all[..|all| - 1])
      || (some[|some| - 1] == all[|all| - 1] && Subsequence(some[..|some| - 1], all[..|all| - 1]))))
  }

  lemma SubsequenceMore(some: seq<Asked>, all: seq<Asked>, last: Asked)
    requires Subsequence(some, all)
    ensures Subsequence(some, all + [last]) && Subsequence(some + [last], all + [last])
  {
    assert (all + [last])[..|all|] == all && (some + [last])[..|some|] == some;
  }

  lemma TakenMore(items: seq<Item>, last: Item)
    ensures TakenFor(items + [last]) == TakenFor(items)
      + if last.Work? && last.task.session != "" then [Asked(last.task.session, last.task.profile)] else []
  {
    assert (items + [last])[..|items|] == items;
  }

  lemma HandedMore(history: seq<Event>, last: Event)
    ensures HandedOut(history + [last]) == HandedOut(history) + if last.Used? then [Asked(last.session, last.profile)] else []
  {
    assert (history + [last])[..|history|] == history;
  }

  /** A worker hands out contexts only for the requests it took, each with its session and profile, in their order. */
  ghost predicate InTaskOrder(history: seq<Event>, taken: seq<Item>) {
    Subsequence(HandedOut(history), TakenFor(taken))
  }

  /** What a request may leave in the history. */
  ghost predicate LeftBy(task: Task, left: seq<Event>) {
    left == [] || (task.session != "" && (left == [Used(task.session, task.profile)] || left == [Dropped(task.session)]))
  }

  lemma TookOne(history: seq<Event>, taken: seq<Item>, task: Task, left: seq<Event>)
    requires InTaskOrder(history, taken) && LeftBy(task, left)
    ensures InTaskOrder(history + left, taken + [Work(task)])
  {
    hide HandedOut, TakenFor, Subsequence;
    TakenMore(taken, Work(task));
    var asked := Asked(task.session, task.profile);
    SubsequenceMore(HandedOut(history), TakenFor(taken), asked);
    if left == [] {
      assert history + [] == history;
      assert TakenFor(taken) + [] == TakenFor(taken);
    } else {
      HandedMore(history, left[0]);
      assert HandedOut(history) + [] == HandedOut(history);
    }
  }

  lemma TookSentinel(history: seq<Event>, taken: seq<Item>)
    requires InTaskOrder(history, taken)
    ensures InTaskOrder(history, taken + [Sentinel])
  {
    TakenMore(taken, Sentinel);
    assert TakenFor(taken) + [] == TakenFor(taken);
  }

  lemma ClearedAfter(history: seq<Event>, taken: seq<Item>)
    requires InTaskOrder(history, taken)
    ensures InTaskOrder(history + [Cleared], taken)
  {
    HandedMore(history, Cleared);
    assert HandedOut(history) + [] == HandedOut(history);
  }
}
