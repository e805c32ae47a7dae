/**
 * The browser pool (`BrowserPool`).  `fetch` and `close` hold the pool's lock; the workers do not, and
 * may proceed wherever a call can wait.
 */
module Browsers {
  import opened BrowserWorker
  import opened ContextBook
  import opened ContextHistory
  import opened PoolProtocol
  import opened Sequences

  datatype Submitted = PoolClosed | Saturated | Accepted(number: nat)

  class BrowserPool {
    const digest: Session -> nat
    const workers: seq<PlaywrightBrowserWorker>
    const limit: nat
    var pool: Pool

    /** The worker is between requests, served only sessions that are routed to it, and what it took in that order. */
    ghost predicate Serves(worker: PlaywrightBrowserWorker, w: nat, taken: seq<Item>)
      requires workers != []
      reads worker
    {
      && worker.Idle() && worker.limit == limit && InTaskOrder(worker.history, taken)
      && forall event :: event in worker.history && event.Used? ==> digest(event.session) % |workers| == w
    }

    ghost predicate Valid()
      reads this, workers
    {
      && workers != [] && |workers| == |pool.inboxes| && PoolValid(pool, digest)
      && Distinct(workers)
      && forall w :: 0 <= w < |workers| ==> Serves(workers[w], w, pool.inboxes[w].taken)
    }

    constructor (count: int, sessions: int, digest: Session -> nat)
      ensures Valid() && fresh(workers)
      ensures |workers| == if count < 1 then 1 else if count > 8 then 8 else count
      ensures limit == if sessions < 1 then 1 else if sessions > 64 then 64 else sessions
      ensures pool == NewPool(|workers|)
    {
      var size := if count < 1 then 1 else if count > 8 then 8 else count;
      var room := if sessions < 1 then 1 else if sessions > 64 then 64 else sessions;
      hide PoolValid, Accounted, Follows;
      NewPoolValid(size, digest);
      var started := StartWorkers(size, room);
      this.digest, workers, limit := digest, started, room;
      pool := NewPool(size);
    }

    static method StartWorkers(size: nat, room: nat) returns (started: seq<PlaywrightBrowserWorker>)
      requires 1 <= room <= 64
      ensures |started| == size && Distinct(started) && fresh(started)
      ensures forall w :: 0 <= w < size ==> started[w].Idle() && started[w].limit == room && started[w].history == []
    {
      hide Accounted, Follows;
      started := [];
      while |started| < size
        invariant |started| <= size && Distinct(started) && fresh(started)
        invariant forall w :: 0 <= w < |started| ==>
          started[w].Idle() && started[w].limit == room && started[w].history == []
      {
        var worker := new PlaywrightBrowserWorker(room);
        started := started + [worker];
      }
    }

    /** The worker that the next request of a session goes to. */
    ghost function Route(session: Session): nat
      requires workers != []
      reads this
    {
      (if session != "" then digest(session) else pool.roundRobin) % |workers|
    }

    /** `_worker_index` */
    method WorkerIndex(session: Session) returns (index: nat)
      requires Valid()
      modifies this`pool
      ensures Valid() && index < |workers| && index == old(Route(session))
      ensures session != "" ==> index == digest(session) % |workers| && pool == old(pool)
      ensures session == "" ==>
        index == old(pool.roundRobin) % |workers| && pool == old(pool).(roundRobin := old(pool.roundRobin) + 1)
    {
      if session != "" {
        return digest(session) % |workers|;
      }
      index := pool.roundRobin % |workers|;
      pool := pool.(roundRobin := pool.roundRobin + 1);
    }

    /** The worker's thread ends, and its contexts are closed. */
    method End(w: nat)
      requires Valid() && w < |workers|
      modifies workers[w]
      ensures Valid() && workers[w].book.cache == [] && workers[w].history == old(workers[w].history) + [Cleared]
      ensures workers[w].book.closed == old(workers[w].book.closed) + Contexts(old(workers[w].book.cache))
    {
      hide PoolValid, Accounted, Follows, InTaskOrder;
      ClearedAfter(workers[w].history, pool.inboxes[w].taken);
      workers[w].Close();
      assert forall v :: 0 <= v < |workers| && v != w ==> workers[v] != workers[w];
    }

    /** A request that was not cancelled while it waited is fetched, with its own session and profile. */
    method Serve(w: nat, task: Task, cancelled: bool, visit: Visit, ghost earlier: seq<Item>)
      requires Valid() && w < |workers| && (task.session != "" ==> digest(task.session) % |workers| == w)
      requires pool.inboxes[w].taken == earlier + [Item.Work(task)] && InTaskOrder(workers[w].history, earlier)
      modifies workers[w]
      ensures Valid()
      ensures cancelled ==> unchanged(workers[w])
      ensures !cancelled ==>
        && workers[w].history == old(workers[w].history) + old(workers[w].Leaves(task.session, task.profile, visit))
        && (task.session == "" ==>
          workers[w].book.created == old(workers[w].book.created) + old(workers[w].OpensOwn(task.profile, visit)))
    {
      hide PoolValid, Accounted, Follows, InTaskOrder;
      if !cancelled {
        ghost var left := workers[w].Leaves(task.session, task.profile, visit);
        TookOne(workers[w].history, earlier, task, left);
        var _ := workers[w].Fetch(task.session, task.profile, visit);
      }
      assert forall v :: 0 <= v < |workers| && v != w ==> workers[v] != workers[w];
    }

    /** The thread dies of an error that it does not expect. */
    method Die(w: nat)
      requires Valid() && w < |workers| && pool.inboxes[w].status.Running?
      modifies this`pool, workers[w]
      ensures Valid() && pool == Crash(old(pool), w)
      ensures workers[w].book.cache == [] && workers[w].history == old(workers[w].history) + [Cleared]
    {
      hide PoolValid, Accounted, Follows, InTaskOrder;
      CrashKeeps(pool, digest, w);
      pool := Crash(pool, w);
      End(w);
    }

    method TakeOne(w: nat, cancelled: bool, visit: Visit)
      requires Valid() && w < |workers| && pool.inboxes[w].status.Running? && pool.inboxes[w].waiting != []
      modifies this`pool, workers[w]
      ensures Valid() && pool == Take(old(pool), w)
      ensures var worker, first := workers[w], old(pool).inboxes[w].waiting[0];
        if first.Sentinel? then worker.book.cache == [] && worker.history == old(worker.history) + [Cleared]
        else if cancelled then unchanged(worker)
        else worker.history == old(worker.history) + old(worker.Leaves(first.task.session, first.task.profile, visit))
      ensures var worker, first := workers[w], old(pool).inboxes[w].waiting[0];
        first.Work? && !cancelled && first.task.session == "" ==>
          worker.book.created == old(worker.book.created) + old(worker.OpensOwn(first.task.profile, visit))
    {
      var first := pool.inboxes[w].waiting[0];
      TakeKeeps(pool, digest, w);
      if first.Work? {
        TakenIsRouted(pool, digest, w);
      }
      hide Valid, PoolValid, Take;
      if first.Work? {
        TakeWork(w, first.task, cancelled, visit);
      } else {
        TakeSentinel(w);
      }
    }

    method TakeSentinel(w: nat)
      requires Valid() && w < |workers| && pool.inboxes[w].status.Running?
      requires pool.inboxes[w].waiting != [] && pool.inboxes[w].waiting[0] == Sentinel && PoolValid(Take(pool, w), digest)
      modifies this`pool, workers[w]
      ensures Valid() && pool == Take(old(pool), w)
      ensures workers[w].book.cache == [] && workers[w].history == old(workers[w].history) + [Cleared]
    {
      hide PoolValid, Accounted, Follows, InTaskOrder;
      TookSentinel(workers[w].history, pool.inboxes[w].taken);
      pool := Take(pool, w);
      End(w);
    }

    method TakeWork(w: nat, task: Task, cancelled: bool, visit: Visit)
      requires Valid() && w < |workers| && pool.inboxes[w].status.Running?
      requires pool.inboxes[w].waiting != [] && pool.inboxes[w].waiting[0] == Item.Work(task)
      requires PoolValid(Take(pool, w), digest) && (task.session != "" ==> digest(task.session) % |workers| == w)
      modifies this`pool, workers[w]
      ensures Valid() && pool == Take(old(pool), w)
      ensures if cancelled then unchanged(workers[w])
        else workers[w].history == old(workers[w].history) + old(workers[w].Leaves(task.session, task.profile, visit))
      ensures !cancelled && task.session == "" ==>
        workers[w].book.created == old(workers[w].book.created) + old(workers[w].OpensOwn(task.profile, visit))
    {
      hide PoolValid, Accounted, Follows, InTaskOrder;
      ghost var earlier := pool.inboxes[w].taken;
      TookOne(workers[w].history, earlier, task, []);
      assert workers[w].history + [] == workers[w].history;
      pool := Take(pool, w);
      Serve(w, task, cancelled, visit, earlier);
    }

    /**
     * One round of `_worker_main`: a running worker takes what is first in its queue, or dies.  A request that was
     * not cancelled is fetched with its own session and profile; at the sentinel, or if the worker dies, its
     * contexts are closed; and no other worker is touched.
     */
    method Work(w: nat, dies: bool, cancelled: bool, visit: Visit)
      requires Valid() && w < |workers|
      modifies this`pool, workers
      ensures Valid() && Proceeds(old(pool), pool)
      ensures var inbox := old(pool).inboxes[w];
        pool == if !inbox.status.Running? then old(pool)
                else if dies then Crash(old(pool), w)
                else if inbox.waiting != [] then Take(old(pool), w)
                else old(pool)
      ensures var worker, inbox := workers[w], old(pool).inboxes[w];
        if !inbox.status.Running? || (!dies && inbox.waiting == []) then unchanged(worker)
        else if dies || inbox.waiting[0].Sentinel? then
          worker.book.cache == [] && worker.history == old(worker.history) + [Cleared]
        else if cancelled then unchanged(worker)
        else
          var task := inbox.waiting[0].task;
          && worker.history == old(worker.history) + old(worker.Leaves(task.session, task.profile, visit))
          && (task.session == "" ==>
            worker.book.created == old(worker.book.created) + old(worker.OpensOwn(task.profile, visit)))
      ensures forall v :: 0 <= v < |workers| && v != w ==> unchanged(workers[v])
    {
      assert |pool.inboxes| == |workers| && workers[w] in workers;
      assert forall v :: 0 <= v < |workers| && v != w ==> workers[v] != workers[w];
      hide Valid;
      ProceedsNowhere(pool);
      if pool.inboxes[w].status.Running? && dies {
        CrashProceeds(pool, w);
        Die(w);
      } else if pool.inboxes[w].status.Running? && pool.inboxes[w].waiting != [] {
        TakeProceeds(pool, w);
        TakeOne(w, cancelled, visit);
      }
    }

    /** Any worker may proceed any number of times. */
    method WorkersProceed()
      requires Valid()
      modifies this`pool, workers
      ensures Valid() && Proceeds(old(pool), pool)
    {
      hide Valid, Proceeds;
      ProceedsNowhere(pool);
      var rounds: nat := *;
      while rounds > 0
        invariant Valid() && Proceeds(old(pool), pool)
      {
        var w: nat := *;
        var dies: bool := *;
        var cancelled: bool := *;
        var visit: Visit := *;
        if w < |workers| {
          ghost var before := pool;
          Work(w, dies, cancelled, visit);
          ProceedsTwice(old(pool), before, pool);
        }
        rounds := rounds - 1;
      }
    }

    /** `fetch`, up to the point where the request is in its worker's queue. */
    method Fetch(session: Session, profile: string) returns (submitted: Submitted)
      requires Valid()
      modifies this`pool, workers
      ensures Valid() && pool.closed == old(pool.closed)
      ensures pool.roundRobin == old(pool.roundRobin) + if session == "" && !old(pool.closed) then 1 else 0
      ensures submitted == PoolClosed <==> old(pool.closed)
      ensures submitted == Saturated ==> |pool.inboxes[old(Route(session))].waiting| == QUEUE_SIZE
      ensures submitted.Accepted? ==>
        && submitted.number == |old(pool.accepted)|
        && pool.accepted == old(pool.accepted) + [Assignment(old(Route(session)), Task(submitted.number, session, profile))]
      ensures !submitted.Accepted? ==> pool.accepted == old(pool.accepted)
      ensures forall w :: 0 <= w < |workers| && !old(pool).inboxes[w].status.Running? ==>
        pool.inboxes[w] == if submitted.Accepted? && w == old(Route(session)) then
          Put(old(pool), w, Item.Work(Task(submitted.number, session, profile))).inboxes[w] else old(pool).inboxes[w]
    {
      hide Accounted, Follows, InTaskOrder;
      if pool.closed {
        return PoolClosed;
      }
      var index := WorkerIndex(session);
      WorkersProceed();
      if |pool.inboxes[index].waiting| >= QUEUE_SIZE {
        return Saturated;
      }
      submitted := Accepted(|pool.accepted|);
      AcceptKeeps(pool, digest, index, session, profile);
      pool := Accept(pool, index, session, profile);
      WorkersProceed();
    }

    /** `close` waits for room in a queue, at most `turns` times. */
    method WaitForRoom(w: nat, turns: nat) returns (left: nat)
      requires Valid() && w < |workers|
      modifies this`pool, workers
      ensures Valid() && Proceeds(old(pool), pool)
      ensures Stuck(old(pool), w) ==> Stuck(pool, w)
    {
      left := turns;
      ProceedsNowhere(pool);
      while |pool.inboxes[w].waiting| >= QUEUE_SIZE && left > 0
        invariant Valid() && Proceeds(old(pool), pool)
      {
        ghost var before := pool;
        WorkersProceed();
        ProceedsTwice(old(pool), before, pool);
        left := left - 1;
      }
      if Stuck(old(pool), w) {
        StaysStuck(old(pool), pool, w);
      }
    }

    method MarkClosed()
      requires Valid()
      modifies this`pool
      ensures Valid() && pool == old(pool).(closed := true)
    {
      CloseKeeps(pool, digest);
      hide PoolValid, Serves;
      pool := pool.(closed := true);
    }

    method PutSentinel(w: nat)
      requires Valid() && w < |workers| && PoolValid(Put(pool, w, Sentinel), digest)
      modifies this`pool
      ensures Valid() && pool == Put(old(pool), w, Sentinel)
    {
      hide PoolValid, Serves;
      pool := Put(pool, w, Sentinel);
    }

    /** The sentinel of one queue, unless it is still full when the turns of waiting are over. */
    method SealOne(w: nat, turns: nat) returns (left: nat, sealed: bool)
      requires Valid() && w < |workers| && pool.closed && Sealed(pool, w)
      modifies this`pool, workers
      ensures Valid() && pool.closed && pool.accepted == old(pool.accepted)
      ensures if sealed then Sealed(pool, w + 1) else Sealed(pool, w) && |pool.inboxes[w].waiting| >= QUEUE_SIZE
      ensures Blocked(Closing(old(pool), w)) && sealed ==> Blocked(Closing(pool, w + 1))
    {
      hide PoolValid, Proceeds, Serves, Sealed, Blocked, Put, Stuck;
      left := WaitForRoom(w, turns);
      ProceedsKeeps(old(pool), pool);
      ProceedsSealed(old(pool), pool, w);
      StaysBlocked(old(pool), pool, w);
      sealed := |pool.inboxes[w].waiting| < QUEUE_SIZE;
      if sealed {
        SealKeeps(pool, digest, w);
        PutSentinel(w);
      }
    }

    lemma StaysBlocked(before: Pool, after: Pool, w: nat)
      requires Proceeds(before, after)
      ensures Blocked(Closing(before, w)) ==> Blocked(Closing(after, w))
    {
      if Blocked(Closing(before, w)) {
        var v :| w <= v < |before.inboxes| && Stuck(before, v);
        StaysStuck(before, after, v);
      }
    }

    /**
     * `close`: a sentinel for every queue, waiting as long as one is full.  It gives up only when the
     * `turns` of waiting under observation are used up, and then at a full queue.  With a worker that is gone
     * and left a full queue it never finishes, however long it waits.
     */
    method Close(turns: nat) returns (finished: bool)
      requires Valid()
      modifies this`pool, workers
      ensures Valid() && pool.closed && pool.accepted == old(pool.accepted)
      ensures old(pool.closed) ==> finished && pool == old(pool)
      ensures !old(pool.closed) && finished ==> forall w :: 0 <= w < |workers| ==> Ended(pool, w)
      ensures !old(pool.closed) && (exists w :: 0 <= w < |workers| && Stuck(old(pool), w)) ==> !finished
      ensures !finished ==> exists w :: (
        0 <= w < |workers| && ClosingValid(Closing(pool, w), digest) && |pool.inboxes[w].waiting| >= QUEUE_SIZE)
    {
      if pool.closed {
        return true;
      }
      OpenIsUnsealed(pool, digest);
      StuckIsBlocked(pool);
      hide Valid, PoolValid, Sealed, Blocked, Stuck, Proceeds;
      MarkClosed();
      ghost var stopped;
      finished, stopped := SealAll(turns);
      QueuesValid();
      if !finished {
        assert ClosingValid(Closing(pool, stopped), digest);
        return false;
      }
      ghost var before := pool;
      WorkersProceed();
      QueuesValid();
      ProceedsKeeps(before, pool);
      ProceedsSealed(before, pool, |workers|);
      SealedEnds(pool);
    }

    /** The sentinels of all queues, one after the other, as far as the turns of waiting go. */
    method SealAll(turns: nat) returns (finished: bool, ghost stopped: nat)
      requires Valid() && pool.closed && Sealed(pool, 0)
      modifies this`pool, workers
      ensures Valid() && pool.closed && pool.accepted == old(pool.accepted)
      ensures finished ==> Sealed(pool, |workers|)
      ensures !finished ==> stopped < |workers| && Sealed(pool, stopped) && |pool.inboxes[stopped].waiting| >= QUEUE_SIZE
      ensures Blocked(Closing(old(pool), 0)) ==> !finished
    {
      hide PoolValid, Sealed, Serves, Blocked;
      var left := turns;
      stopped := 0;
      for w := 0 to |workers|
        invariant Valid() && pool.closed && pool.accepted == old(pool.accepted) && Sealed(pool, w)
        invariant Blocked(Closing(old(pool), 0)) ==> Blocked(Closing(pool, w))
      {
        var sealed;
        left, sealed := SealOne(w, left);
        if !sealed {
          return false, w;
        }
      }
      NoneBlocked(Closing(pool, |workers|));
      return true, 0;
    }

    lemma NoneBlocked(state: Closing)
      requires state.sealed == |state.pool.inboxes|
      ensures !Blocked(state)
    {
    }

    lemma StuckIsBlocked(pool: Pool)
      ensures (exists w :: 0 <= w < |pool.inboxes| && Stuck(pool, w)) ==> Blocked(Closing(pool.(closed := true), 0))
    {
      if exists w :: 0 <= w < |pool.inboxes| && Stuck(pool, w) {
        var w :| 0 <= w < |pool.inboxes| && Stuck(pool, w);
        assert Stuck(pool.(closed := true), w);
      }
    }

    lemma QueuesValid()
      requires Valid()
      ensures |workers| == |pool.inboxes| && PoolValid(pool, digest)
    {
    }

    lemma ProceedsKeeps(before: Pool, after: Pool)
      requires Proceeds(before, after)
      ensures after.closed == before.closed && after.accepted == before.accepted
    {
    }

    // ----- Contexts across the pool -----

    ghost function CachedBefore(count: nat): nat
      requires count <= |workers|
      reads workers
    {
      if count == 0 then 0 else CachedBefore(count - 1) + |workers[count - 1].book.cache|
    }

    lemma OneMoreTimes(count: nat, size: nat)
      ensures (count + 1) * size == count * size + size
    {
    }

    lemma CacheFits(w: nat)
      requires Valid() && w < |workers|
      ensures |workers[w].book.cache| <= limit
    {
      assert Serves(workers[w], w, pool.inboxes[w].taken);
    }

    /** Cached contexts never exceed workers times sessions per worker. */
    lemma {:induction false} CachedBound(count: nat)
      requires Valid() && count <= |workers|
      ensures CachedBefore(count) <= count * limit
    {
      hide Valid;
      if count > 0 {
        CachedBound(count - 1);
        CacheFits(count - 1);
        OneMoreTimes(count - 1, limit);
      }
    }

    /** No session has contexts in two workers. */
    lemma OneWorkerPerSession(v: nat, w: nat, session: Session)
      requires Valid() && v < |workers| && w < |workers|
      requires session in Sessions(workers[v].book.cache) && session in Sessions(workers[w].book.cache)
      ensures v == w
    {
      ServedHere(v, session);
      ServedHere(w, session);
    }

    lemma ServedHere(w: nat, session: Session)
      requires Valid() && w < |workers| && session in Sessions(workers[w].book.cache)
      ensures digest(session) % |workers| == w
    {
      var worker := workers[w];
      assert Serves(worker, w, pool.inboxes[w].taken);
      var recents, cached := Recents(worker.history), Sessions(worker.book.cache);
      var i :| 0 <= i < |cached| && cached[i] == session;
      assert recents[|recents| - |cached|..][i] == session;
      RecentsUsed(worker.history, session);
    }
  }

  /**
   * A pool that can never be closed: its worker dies before it takes anything, the queue fills up all the same,
   * and `close` waits in vain, however many turns it is observed.
   */
  method ClosesNever(sessions: int, turns: nat) returns (browsers: BrowserPool, finished: bool)
    ensures fresh(browsers) && browsers.pool.closed && !finished
  {
    hide BrowserPool.Serves, PoolValid, Proceeds;
    browsers := new BrowserPool(1, sessions, session => 0);
    browsers.Work(0, true, false, Visit(false, false, false, false));
    for count := 0 to QUEUE_SIZE
      invariant fresh(browsers) && fresh(browsers.workers) && browsers.Valid() && |browsers.workers| == 1
      invariant !browsers.pool.closed && browsers.pool.inboxes[0].status.Crashed?
      invariant |browsers.pool.inboxes[0].waiting| == count
    {
      var submitted := browsers.Fetch("", "");
      assert submitted.Accepted?;
    }
    assert Stuck(browsers.pool, 0);
    finished := browsers.Close(turns);
  }
}
