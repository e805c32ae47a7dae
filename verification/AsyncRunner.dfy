/**
 * The request scheduler of one run (`application/async_runner.py`): a pending queue, deferred
 * buckets per host with a rotating host queue, and tasks in flight.  The answers of the host
 * limiter, the shared gate and the rate limiter are arbitrary; so is which tasks finish when.
 */
module AsyncRunner {
  import opened HostQueues
  import opened HostTurns
  import opened Occurrences
  import opened PendingScan
  import opened RunLedger
  import opened Sequences

  /** What the host limiter, the gate and the rate limiter answer, if they are asked. */
  datatype Answers = Answers(leaseGranted: bool, gateGranted: bool, rateReady: bool)

  /**
   * What a run cannot decide: the answers to the n-th admission that is tried, whether a request succeeds or its task
   * is cancelled, whether the run is cancelled, or paused, at its n-th checkpoint, whether its n-th write fails, and the
   * request limit and the resource pressure that its n-th fill reads.
   */
  datatype Surroundings = Surroundings(
    ask: nat -> Answers,
    succeeds: Request -> bool,
    cutOff: Request -> bool,
    cancels: nat -> bool,
    pauses: nat -> bool,
    writeFails: nat -> bool,
    limits: nat -> nat,
    pressure: nat -> bool)

  /** No task of these requests is cancelled. */
  ghost predicate NoneCut(cutOff: Request -> bool, requests: multiset<Request>) {
    forall request :: request in requests ==> !cutOff(request)
  }

  /**
   * A run that passed these checkpoints and made these writes is cancelled or fails for a reason, and does not go on
   * when there is one.
   */
  ghost predicate Explained(env: Surroundings, admitted: seq<Request>, checks: nat, writes: nat, status: RunStatus, turns: nat) {
    && (!Quiet(env.cancels, 0, checks) ==> status == Cancelled)
    && (status == Cancelled ==> !Quiet(env.cancels, 0, checks) || !NoneCut(env.cutOff, multiset(admitted)))
    && (!Quiet(env.writeFails, 0, writes) ==> status == Failed)
    && (status == Failed ==> !Quiet(env.writeFails, 0, writes) || !Quiet(env.pressure, 0, turns + 1))
  }

  lemma ExplainedMore(env: Surroundings, before: seq<Request>, passed: nat, written: nat, turns: nat,
                      admitted: seq<Request>, checks: nat, writes: nat, status: RunStatus)
    requires Explained(env, before, passed, written, InProgress, turns)
    requires before <= admitted && passed <= checks && written <= writes
    requires !Quiet(env.cancels, passed, checks) ==> status == Cancelled
    requires status == Cancelled ==> !Quiet(env.cancels, passed, checks) || !NoneCut(env.cutOff, multiset(admitted))
    requires !Quiet(env.writeFails, written, writes) ==> status == Failed
    requires status == Failed ==> !Quiet(env.writeFails, written, writes) || env.pressure(turns + 1)
    ensures Explained(env, admitted, checks, writes, status, turns + 1)
  {
    QuietTwice(env.cancels, 0, passed, checks);
    QuietTwice(env.writeFails, 0, written, writes);
  }

  lemma ExplainedStart(env: Surroundings, admitted: seq<Request>, checks: nat, status: RunStatus)
    requires status == Failed <==> env.writeFails(0) || env.pressure(0)
    requires status == Failed ==> checks == 0
    requires status == Cancelled <==> !Quiet(env.cancels, 0, checks)
    ensures Explained(env, admitted, checks, 1, status, 0)
  {
  }

  lemma ExplainedLonger(env: Surroundings, admitted: seq<Request>, checks: nat, writes: nat, status: RunStatus, turn: nat, turns: nat)
    requires Explained(env, admitted, checks, writes, status, turn) && turn <= turns
    ensures Explained(env, admitted, checks, writes, status, turns)
  {
  }

  lemma ExplainedEnd(env: Surroundings, admitted: seq<Request>, checks: nat, writes: nat, turns: nat)
    requires Explained(env, admitted, checks, writes, InProgress, turns)
    ensures env.cancels(checks) ==> Explained(env, admitted, checks + 1, writes, Cancelled, turns)
    ensures !env.cancels(checks) ==> Explained(env, admitted, checks + 1, writes + 1,
      if env.writeFails(writes) then Failed else Completed, turns)
  {
    QuietOneMore(env.cancels, 0, checks);
    QuietOneMore(env.writeFails, 0, writes);
  }

  /** Filled up, in the admissions tried since some moment, to the limit. */
  ghost predicate FilledUp(books: Books, queues: Queues, attempts: seq<Attempt>, limit: nat) {
    exists before :: before <= attempts && Served(books, queues, Since(before, attempts), limit)
  }

  lemma JustFilled(books: Books, queues: Queues, before: seq<Attempt>, attempts: seq<Attempt>, limit: nat)
    requires before <= attempts && Served(books, queues, Since(before, attempts), limit)
    ensures FilledUp(books, queues, attempts, limit)
  {
  }

  /** Granted only if all three are; a full gate is told apart, and nobody is asked after a refusal. */
  ghost predicate Judged(answers: Answers, admission: Admission) {
    && (admission == Admitted <==> answers == Answers(true, true, true))
    && (admission == GateFull <==> answers.leaseGranted && !answers.gateGranted)
  }

  /** Every attempt has the answer that was given to it. */
  ghost predicate Answered(ask: nat -> Answers, attempts: seq<Attempt>) {
    forall k :: 0 <= k < |attempts| ==> Judged(ask(k), attempts[k].answer)
  }

  lemma NothingAsked(ask: nat -> Answers)
    ensures Answered(ask, [])
  {
  }

  lemma AnsweredMore(ask: nat -> Answers, attempts: seq<Attempt>, attempt: Attempt)
    requires Answered(ask, attempts) && Judged(ask(|attempts|), attempt.answer)
    ensures Answered(ask, attempts + [attempt])
  {
  }

  /** What became of a pending entry. */
  datatype Scanned = Submitted | Behind | PutBack

  /** Why the deferred-host loop ended. */
  datatype Stop = CapacityUsed | NothingDeferred | GateClosed | AllRefused | Interrupted

  datatype FillResult = Filled | FillCancelled | ResourcePressure

  datatype RunStatus = InProgress | Completed | Cancelled | Failed

  ghost function Refusals(hosts: seq<string>): seq<Attempt> {
    seq(|hosts|, i requires 0 <= i < |hosts| => Attempt(hosts[i], HostRefused))
  }

  lemma NoRefusals()
    ensures Refusals([]) == []
  {
  }

  lemma RefusedAgain(attempts: seq<Attempt>, refused: seq<string>, host: string)
    requires EndsWith(attempts, Refusals(refused))
    ensures EndsWith(attempts + [Attempt(host, HostRefused)], Refusals(refused + [host]))
  {
    assert Refusals(refused + [host]) == Refusals(refused) + [Attempt(host, HostRefused)];
  }

  /** The last admissions tried were refusals of `refused`, which are now the last hosts in the queue. */
  ghost predicate RefusedInTurn(hosts: seq<string>, attempts: seq<Attempt>, refused: seq<string>) {
    EndsWith(hosts, refused) && EndsWith(attempts, Refusals(refused))
  }

  lemma NoneRefused(hosts: seq<string>, attempts: seq<Attempt>)
    ensures RefusedInTurn(hosts, attempts, [])
  {
    EndsWithAll([], hosts);
    EndsWithAll([], attempts);
    NoRefusals();
  }

  lemma AllInTurn(hosts: seq<string>, attempts: seq<Attempt>, refused: seq<string>)
    requires RefusedInTurn(hosts, attempts, refused) && |refused| >= |hosts|
    ensures refused == hosts && EndsWith(attempts, Refusals(hosts))
  {
    EndsWithAll(refused, hosts);
  }

  lemma CountRefusals(hosts: seq<string>)
    ensures |Refusals(hosts)| == |hosts|
  {
  }

  /** The last admission that was tried met a full gate. */
  ghost predicate GateWasFull(attempts: seq<Attempt>) {
    attempts != [] && attempts[|attempts| - 1].answer == GateFull
  }

  lemma GateSince(before: seq<Attempt>, earlier: seq<Attempt>, attempts: seq<Attempt>)
    requires before <= earlier <= attempts && GateWasFull(Since(earlier, attempts))
    ensures GateWasFull(Since(before, attempts))
  {
  }

  /**
   * In flight up to the limit, or stopped at a full gate, or nothing left to try: nothing is pending, and every
   * deferred host was refused.
   */
  ghost predicate Served(books: Books, queues: Queues, tried: seq<Attempt>, limit: nat) {
    || |books.tasks| >= limit
    || GateWasFull(tried)
    || (queues.pending == [] && forall host :: host in queues.hosts ==> Attempt(host, HostRefused) in tried)
  }

  lemma AllTried(before: seq<Attempt>, middle: Queues, between: seq<Attempt>,
                 now: Queues, attempts: seq<Attempt>, steps: seq<EntryStep>)
    requires before <= between && ScanTaken(middle, between, now, attempts, steps)
    requires middle.hosts == [] || EndsWith(Since(before, between), Refusals(middle.hosts))
    ensures between <= attempts
    ensures forall host :: host in now.hosts ==> Attempt(host, HostRefused) in Since(before, attempts)
  {
    var earlier, later := Since(before, between), Since(between, attempts);
    assert Since(before, attempts) == earlier + later;
    forall host | host in now.hosts ensures Attempt(host, HostRefused) in earlier + later {
      if host in middle.hosts {
        var k :| 0 <= k < |middle.hosts| && middle.hosts[k] == host;
        assert Refusals(middle.hosts)[k] == Attempt(host, HostRefused);
        assert earlier[|earlier| - |Refusals(middle.hosts)| + k] == Refusals(middle.hosts)[k];
      } else {
        NewHostsRefused(middle, steps, host);
      }
    }
  }

  lemma EndsAtGate(attempts: seq<Attempt>, host: string)
    requires EndsWith(attempts, [Attempt(host, GateFull)])
    ensures GateWasFull(attempts)
  {
    assert attempts[|attempts| - 1..] == [Attempt(host, GateFull)];
  }

  /** While the scheduler awaits, tasks may start and finish, and nothing else changes. */
  ghost predicate Awaited(before: Books, after: Books) {
    && after == before.(tasks := after.tasks, leases := after.leases, slots := after.slots)
    && |before.tasks| == |after.tasks|
    && forall i :: 0 <= i < |before.tasks| ==>
      after.tasks[i].request == before.tasks[i].request && (before.tasks[i].finished ==> after.tasks[i].finished)
  }

  /** `count` more requests were admitted; nothing was recorded or dropped. */
  ghost predicate FlightGrew(before: Books, after: Books, count: nat) {
    && |after.tasks| == |before.tasks| + count
    && before.admitted <= after.admitted && |after.admitted| == |before.admitted| + count
    && after.recorded == before.recorded && after.dropped == before.dropped && after.abandoned == before.abandoned
    && after.successCount == before.successCount && after.failureCount == before.failureCount
  }

  lemma AwaitedTwice(before: Books, middle: Books, after: Books)
    requires Awaited(before, middle) && Awaited(middle, after)
    ensures Awaited(before, after)
  {
  }

  lemma MoveToRecorded(recorded: seq<Request>, request: Request, marked: multiset<Request>)
    requires request in marked
    ensures multiset(recorded + [request]) + (marked - multiset{request}) == multiset(recorded) + marked
  {
  }

  lemma CountedDropped(succeeds: Request -> bool, books: Books, i: nat)
    requires Counted(succeeds, books) && i < |books.tasks|
    ensures Counted(succeeds, DropBooks(books, i))
  {
  }

  lemma CountedAwaited(succeeds: Request -> bool, before: Books, after: Books)
    requires Counted(succeeds, before) && Awaited(before, after)
    ensures Counted(succeeds, after)
  {
  }

  /** Nothing but marked, finished tasks leave flight, each is recorded, and none of them was cancelled. */
  ghost predicate Collecting(cutOff: Request -> bool, start: Books, now: Books, marks: seq<bool>) {
    && |marks| == |now.tasks| && (forall i :: 0 <= i < |marks| && marks[i] ==> now.tasks[i].finished)
    && now.admitted == start.admitted && now.abandoned == start.abandoned && now.dropped == start.dropped
    && start.recorded <= now.recorded
    && var done := Marked(start.tasks, Finished(start.tasks));
      && multiset(now.recorded) + Marked(now.tasks, marks) == multiset(start.recorded) + done
      && Marked(now.tasks, marks) <= done && NoneCut(cutOff, done - Marked(now.tasks, marks))
  }

  lemma CollectStart(cutOff: Request -> bool, start: Books, marks: seq<bool>)
    requires marks == Finished(start.tasks)
    ensures Collecting(cutOff, start, start, marks)
  {
  }

  lemma CollectRecord(cutOff: Request -> bool, start: Books, now: Books, marks: seq<bool>, i: nat, success: bool)
    requires Collecting(cutOff, start, now, marks) && i < |marks| && marks[i] && !cutOff(now.tasks[i].request)
    ensures Collecting(cutOff, start, RecordBooks(now, i, success), Without(marks, i)) && |Without(marks, i)| < |marks|
  {
    hide Marked;
    var request, marked, done := now.tasks[i].request, Marked(now.tasks, marks), Marked(start.tasks, Finished(start.tasks));
    MarkedRemove(now.tasks, marks, i);
    MarksWithout(now.tasks, marks, i);
    MoveToRecorded(now.recorded, request, marked);
    assert done - (marked - multiset{request}) == done - marked + multiset{request};
  }

  lemma CollectAwait(cutOff: Request -> bool, start: Books, now: Books, marks: seq<bool>, later: Books)
    requires Collecting(cutOff, start, now, marks) && Awaited(now, later)
    ensures Collecting(cutOff, start, later, marks)
  {
    MarkedSame(now.tasks, later.tasks, marks);
  }

  lemma CollectEnd(cutOff: Request -> bool, start: Books, now: Books, marks: seq<bool>)
    requires Collecting(cutOff, start, now, marks) && forall i :: 0 <= i < |marks| ==> !marks[i]
    ensures var done := Marked(start.tasks, Finished(start.tasks));
      multiset(now.recorded) == multiset(start.recorded) + done && NoneCut(cutOff, done)
  {
    var done := Marked(start.tasks, Finished(start.tasks));
    NoneMarked(now.tasks, marks);
    assert done - multiset{} == done;
  }

  lemma CollectFacts(cutOff: Request -> bool, start: Books, now: Books, marks: seq<bool>)
    requires Collecting(cutOff, start, now, marks)
    ensures |marks| == |now.tasks| && forall i :: 0 <= i < |marks| && marks[i] ==> now.tasks[i].finished
    ensures now.admitted == start.admitted && now.abandoned == start.abandoned && now.dropped == start.dropped
    ensures start.recorded <= now.recorded
  {
  }

  lemma CutFound(cutOff: Request -> bool, start: Books, now: Books, marks: seq<bool>, i: nat)
    requires Collecting(cutOff, start, now, marks) && i < |marks| && marks[i] && cutOff(now.tasks[i].request)
    ensures !NoneCut(cutOff, Marked(start.tasks, Finished(start.tasks)))
  {
    MarkedRemove(now.tasks, marks, i);
  }

  lemma DoneAdmitted(cutOff: Request -> bool, before: Books, seen: Books, admitted: seq<Request>)
    requires Balanced(before) && Awaited(before, seen) && before.admitted <= admitted
    requires !NoneCut(cutOff, Marked(seen.tasks, Finished(seen.tasks)))
    ensures !NoneCut(cutOff, multiset(admitted))
  {
    hide Marked, Carried;
    MarkedCarried(before.tasks, seen.tasks, Finished(seen.tasks));
    var request :| request in Marked(seen.tasks, Finished(seen.tasks)) && cutOff(request);
    assert request in multiset(before.admitted);
    assert admitted == before.admitted + admitted[|before.admitted|..];
    assert request in multiset(admitted);
  }

  lemma SomeMarked(tasks: seq<Task>, marks: seq<bool>)
    requires |tasks| == |marks| && exists i :: 0 <= i < |marks| && marks[i]
    ensures Marked(tasks, marks) != multiset{}
  {
    var i :| 0 <= i < |marks| && marks[i];
    MarkedRemove(tasks, marks, i);
  }

  lemma MarksWithout(tasks: seq<Task>, marks: seq<bool>, i: nat)
    requires |tasks| == |marks| && i < |tasks| && forall j :: 0 <= j < |marks| && marks[j] ==> tasks[j].finished
    ensures |Without(marks, i)| == |Without(tasks, i)|
    ensures forall j :: 0 <= j < |Without(marks, i)| && Without(marks, i)[j] ==> Without(tasks, i)[j].finished
  {
  }

  /** How many of the first `turns` turns are multiples of `every`. */
  ghost function Pauses(turns: nat, every: nat): nat
    requires every > 0
  {
    if turns == 0 then 0 else Pauses(turns - 1, every) + if (turns - 1) % every == 0 then 1 else 0
  }

  /** So many turns passed all their checkpoints, one every so often, and none of them raised. */
  ghost predicate Passed(cancels: nat -> bool, from: nat, to: nat, turns: nat, every: nat)
    requires every > 0
  {
    to == from + Pauses(turns, every) && Quiet(cancels, from, to)
  }

  lemma PassedNone(cancels: nat -> bool, from: nat, every: nat)
    requires every > 0
    ensures Passed(cancels, from, from, 0, every)
  {
  }

  lemma PassedMore(cancels: nat -> bool, from: nat, to: nat, turns: nat, every: nat)
    requires every > 0 && Passed(cancels, from, to, turns, every)
    ensures to >= from
    ensures var next := to + if turns % every == 0 then 1 else 0;
      if turns % every == 0 && cancels(to) then !Quiet(cancels, from, next)
      else Passed(cancels, from, next, turns + 1, every)
  {
    QuietOneMore(cancels, from, to);
  }

  lemma FlightUnchanged(books: Books)
    ensures FlightGrew(books, books, 0)
  {
  }

  lemma FlightAwaited(before: Books, middle: Books, after: Books, count: nat)
    requires FlightGrew(before, middle, count) && Awaited(middle, after)
    ensures FlightGrew(before, after, count)
  {
  }

  lemma FlightAdded(before: Books, middle: Books, after: Books, count: nat, more: nat)
    requires FlightGrew(before, middle, count) && FlightGrew(middle, after, more)
    ensures FlightGrew(before, after, count + more)
  {
  }

  lemma FlightAdmitted(before: Books, request: Request)
    ensures FlightGrew(before, AdmitBooks(before, request), 1)
  {
  }

  lemma FlightFacts(before: Books, after: Books)
    ensures forall count :: FlightGrew(before, after, count) ==>
      && before.admitted <= after.admitted && after.dropped == before.dropped && after.recorded == before.recorded
      && after.abandoned == before.abandoned
  {
  }

  lemma EntryShortens(queues: Queues, step: EntryStep)
    requires queues.pending != []
    ensures step != Tried(GateFull) ==> |AfterEntry(queues, step).pending| == |queues.pending| - 1
  {
  }

  lemma GateMet(before: seq<Attempt>, attempts: seq<Attempt>, host: string)
    requires before <= attempts
    ensures GateWasFull(Since(before, attempts + [Attempt(host, GateFull)]))
  {
    SinceAppend(before, attempts, Attempt(host, GateFull));
  }

  class AsyncRun {
    const requests: seq<Request>
    const env: Surroundings
    var queues: Queues
    var books: Books

    /** Every admission that was tried, with its answer. */
    var attempts: seq<Attempt>

    /** How many checkpoints it has passed, and how many writes it has made. */
    var checks: nat
    var writes: nat

    ghost predicate Valid()
      reads this
    {
      && Orderly(requests, books.admitted, queues) && Balanced(books) && Answered(env.ask, attempts)
      && Counted(env.succeeds, books)
    }

    ghost predicate New()
      reads this
    {
      queues == Queues(requests, [], map[]) && books == NEW_BOOKS && attempts == [] && checks == 0 && writes == 0
    }

    constructor (requests: seq<Request>, env: Surroundings)
      ensures Valid() && New() && this.requests == requests && this.env == env
    {
      hide Orderly, Balanced, Answered, CountOf;
      OrderlyNew(requests);
      NewBooksBalanced();
      NothingAsked(env.ask);
      CountedNew(env.succeeds);
      this.requests, this.env := requests, env;
      queues := Queues(requests, [], map[]);
      books := NEW_BOOKS;
      attempts, checks, writes := [], 0, 0;
    }

    /**
     * `_admit_async_request`: host lease, then gate slot, then rate reservation.  Each refusal
     * gives back what was taken before it.
     */
    method Admit(request: Request) returns (admission: Admission)
      modifies this`books, this`attempts
      ensures var answers := env.ask(|old(attempts)|);
        admission ==
          if answers.leaseGranted && answers.gateGranted && answers.rateReady then Admitted
          else if answers.leaseGranted && !answers.gateGranted then GateFull
          else HostRefused
      ensures old(Answered(env.ask, attempts)) ==> Answered(env.ask, attempts)
      ensures attempts == old(attempts) + [Attempt(request.host, admission)]
      ensures books == if admission == Admitted then AdmitBooks(old(books), request) else old(books)
    {
      var answers := env.ask(|attempts|);
      admission := HostRefused;
      TakeBack(books.leases, request.host);
      if answers.leaseGranted {
        books := books.(leases := books.leases + multiset{request.host});
        if !answers.gateGranted {
          books := books.(leases := books.leases - multiset{request.host});
          admission := GateFull;
        } else {
          books := books.(slots := books.slots + 1);
          if !answers.rateReady {
            books := books.(leases := books.leases - multiset{request.host}, slots := books.slots - 1);
          } else {
            books := books.(tasks := books.tasks + [Task(books.nextTask, request, false, false)], nextTask := books.nextTask + 1);
            books := books.(requestCount := books.requestCount + 1, admitted := books.admitted + [request]);
            admission := Admitted;
          }
        }
      }
      if Answered(env.ask, attempts) {
        AnsweredMore(env.ask, attempts, Attempt(request.host, admission));
      }
      attempts := attempts + [Attempt(request.host, admission)];
    }

    /**
     * An await that suspends the scheduler: every task in flight takes its first step, and any of them may
     * run to their end.
     */
    method Await()
      requires Balanced(books)
      modifies this`books
      ensures Balanced(books) && Awaited(old(books), books) && AllStarted(books.tasks)
    {
      hide Balanced;
      var i := 0;
      while i < |books.tasks|
        invariant 0 <= i <= |books.tasks|
        invariant Balanced(books) && Awaited(old(books), books) && AllStarted(books.tasks[..i])
      {
        var ends: bool := *;
        RunTask(i, ends);
        i := i + 1;
      }
      assert books.tasks[..i] == books.tasks;
    }

    /** The task takes its first step, if it has not, and may run to its end. */
    method RunTask(i: nat, ends: bool)
      requires Balanced(books) && i < |books.tasks| && AllStarted(books.tasks[..i])
      modifies this`books
      ensures Balanced(books) && Awaited(old(books), books) && AllStarted(books.tasks[..i + 1])
      ensures books.tasks[i].finished <==> old(books.tasks)[i].finished || ends
    {
      hide Balanced;
      BalancedStart(books, i);
      books := StartBooks(books, i);
      if ends && !books.tasks[i].finished {
        BalancedFinish(books, i);
        books := FinishBooks(books, i);
      }
      ghost var now := books.tasks;
      forall task | task in now[..i + 1] ensures task.started {
        var j :| 0 <= j <= i && now[j] == task;
        if j < i {
          assert now[j] == old(books.tasks)[..i][j];
        }
      }
    }

    /**
     * `async_checkpoint` on every n-th turn: it raises if the run was cancelled, and suspends only while the run is
     * paused.
     */
    method Checkpoint(turn: nat, every: nat) returns (cancelled: bool)
      requires Balanced(books) && every > 0
      modifies this`books, this`checks
      ensures Balanced(books) && Awaited(old(books), books)
      ensures checks == old(checks) + if turn % every == 0 then 1 else 0
      ensures cancelled <==> turn % every == 0 && env.cancels(old(checks))
      ensures turn % every == 0 && env.pauses(old(checks)) ==> AllStarted(books.tasks)
    {
      cancelled := false;
      if turn % every == 0 {
        if env.pauses(checks) {
          Await();
        }
        cancelled := env.cancels(checks);
        checks := checks + 1;
      }
    }

    /**
     * One turn of the loop over the deferred hosts: the first request of the first host's bucket is
     * tried.  A full gate puts the host back in front, a refusal sends it to the back.
     */
    method TryFirstHost() returns (admission: Admission)
      requires Valid() && queues.hosts != []
      modifies this`queues, this`books, this`attempts
      ensures Valid()
      ensures queues.pending == old(queues.pending)
      ensures attempts == old(attempts) + [Attempt(old(queues.hosts)[0], admission)]
      ensures admission != Admitted ==> books == old(books)
      ensures queues == AfterTry(old(queues), admission)
      ensures admission == GateFull ==> queues == old(queues)
      ensures admission == HostRefused ==> queues == old(queues).(hosts := Rotate(old(queues.hosts)))
      ensures admission == Admitted ==> FlightGrew(old(books), books, 1)
      ensures books.admitted == old(books.admitted) + if admission == Admitted then FirstRequest(old(queues)) else []
    {
      hide Orderly, Balanced, Answered, CountOf;
      ghost var before, admitted := queues, books.admitted;
      OrderlyFirst(requests, admitted, before);
      var host := queues.hosts[0];
      queues := queues.(hosts := queues.hosts[1..]);
      var bucket := queues.buckets[host];
      BalancedAdmit(books, bucket[0]);
      admission := Admit(bucket[0]);
      match admission {
        case GateFull =>
          queues := queues.(hosts := [host] + queues.hosts);
          assert queues.hosts == before.hosts;
        case HostRefused =>
          OrderlyRotate(requests, admitted, before);
          queues := queues.(hosts := queues.hosts + [host]);
        case Admitted =>
          OrderlyAdvance(requests, admitted, before);
          FlightAdmitted(old(books), bucket[0]);
          bucket := bucket[1..];
          if bucket != [] {
            queues := queues.(hosts := queues.hosts + [host], buckets := queues.buckets[host := bucket]);
          } else {
            queues := queues.(buckets := queues.buckets - {host});
          }
          assert queues == AdvanceHost(before);
      }
    }

    /** One turn with its checkpoint; `refused` are the hosts refused since the last admission. */
    method Turn(scanIndex: nat, ghost refused: seq<string>)
      returns (cancelled: bool, admission: Admission, ghost refusedNow: seq<string>)
      requires Valid() && queues.hosts != []
      requires RefusedInTurn(queues.hosts, attempts, refused) && |refused| < |queues.hosts|
      modifies this`queues, this`books, this`attempts, this`checks
      ensures Valid() && queues.pending == old(queues.pending)
      ensures checks == old(checks) + if scanIndex % 64 == 0 then 1 else 0
      ensures cancelled <==> scanIndex % 64 == 0 && env.cancels(old(checks))
      ensures FlightGrew(old(books), books, if !cancelled && admission == Admitted then 1 else 0)
      ensures RefusedInTurn(queues.hosts, attempts, refusedNow)
      ensures attempts == if cancelled then old(attempts) else old(attempts) + [Attempt(old(queues.hosts)[0], admission)]
      ensures !cancelled ==> queues == AfterTry(old(queues), admission)
      ensures books.admitted == if cancelled then old(books.admitted)
        else old(books.admitted) + if admission == Admitted then FirstRequest(old(queues)) else []
      ensures cancelled ==> queues == old(queues) && refusedNow == refused
      ensures !cancelled && admission == GateFull ==>
        queues.hosts != [] && EndsWith(attempts, [Attempt(queues.hosts[0], GateFull)])
      ensures !cancelled && admission == HostRefused ==>
        |queues.hosts| == |old(queues.hosts)| && |refusedNow| == |refused| + 1
      ensures !cancelled && admission == Admitted ==> refusedNow == []
    {
      hide Orderly, Balanced, Answered, CountOf, EndsWith, Refusals, FlightGrew, AfterTry, FirstRequest;
      admission, refusedNow := HostRefused, refused;
      FlightUnchanged(books);
      cancelled := Checkpoint(scanIndex, 64);
      FlightAwaited(old(books), old(books), books, 0);
      if !cancelled {
        ghost var hosts, earlier, start := queues.hosts, attempts, books;
        admission := TryFirstHost();
        EndsWithAll([], queues.hosts);
        EndsWithAll([], attempts);
        NoRefusals();
        match admission {
          case GateFull =>
            refusedNow := [];
            EndsWithLast(earlier, Attempt(hosts[0], GateFull));
          case HostRefused =>
            refusedNow := refused + [hosts[0]];
            Rotated(hosts, refused);
            RefusedAgain(earlier, refused, hosts[0]);
          case Admitted =>
            refusedNow := [];
            FlightAdded(old(books), start, books, 0, 1);
        }
      }
    }

    /**
     * The loop over the deferred hosts.  Each time the first host is tried, and the queues are what the answers
     * make of them.  The loop ends early only at a full gate, on cancellation, or when every host still
     * deferred was refused, one after the other, since the last admission.
     */
    method FillDeferred(capacity: nat) returns (submitted: nat, stop: Stop)
      requires Valid()
      modifies this`queues, this`books, this`attempts, this`checks
      ensures Valid() && queues.pending == old(queues.pending)
      ensures submitted <= capacity && FlightGrew(old(books), books, submitted)
      ensures stop == CapacityUsed ==> submitted == capacity
      ensures stop == NothingDeferred ==> queues.hosts == []
      ensures old(attempts) <= attempts
      ensures checks >= old(checks)
      ensures if stop == Interrupted then !Quiet(env.cancels, old(checks), checks)
        else Passed(env.cancels, old(checks), checks, |Since(old(attempts), attempts)|, 64)
      ensures TurnsTaken(old(queues), old(attempts), queues, attempts)
      ensures books.admitted == old(books.admitted) + AdmittedTurns(old(queues), Since(old(attempts), attempts))
      ensures stop == GateClosed ==>
        queues.hosts != [] && EndsWith(Since(old(attempts), attempts), [Attempt(queues.hosts[0], GateFull)])
      ensures stop == AllRefused ==>
        queues.hosts != [] && EndsWith(Since(old(attempts), attempts), Refusals(queues.hosts))
    {
      hide Orderly, Balanced, Answered, CountOf, EndsWith, Refusals, FlightGrew, RefusedInTurn, TurnsTaken, Turned, Turning, AfterTry,
        FirstRequest, Passed, Quiet, Since, AdmittedTurns;
      ghost var refused := [];
      PassedNone(env.cancels, checks, 64);
      NotTurned(queues, attempts, books.admitted);
      NoneRefused(queues.hosts, attempts);
      FlightUnchanged(books);
      submitted, stop := 0, CapacityUsed;
      var noProgress, scanIndex := 0, 0;
      while submitted < capacity && queues.hosts != []
        invariant Valid() && queues.pending == old(queues.pending)
        invariant submitted <= capacity && FlightGrew(old(books), books, submitted)
        invariant RefusedInTurn(queues.hosts, attempts, refused)
        invariant old(attempts) <= attempts && |attempts| == |old(attempts)| + scanIndex && noProgress <= scanIndex
        invariant Turned(old(queues), old(attempts), old(books.admitted), queues, attempts, books.admitted)
        invariant Turning(old(queues), old(attempts), old(books.admitted), queues, attempts, books.admitted)
        invariant noProgress == |refused| && (queues.hosts != [] ==> noProgress < |queues.hosts|)
        invariant stop == CapacityUsed
        invariant checks >= old(checks) && Passed(env.cancels, old(checks), checks, scanIndex, 64)
        decreases capacity - submitted, |queues.hosts| - noProgress
      {
        ghost var start, before, tried := books, queues, attempts;
        PassedMore(env.cancels, old(checks), checks, scanIndex, 64);
        var cancelled, admission;
        cancelled, admission, refused := Turn(scanIndex, refused);
        FlightAdded(old(books), start, books, submitted, if !cancelled && admission == Admitted then 1 else 0);
        if cancelled {
          stop := Interrupted;
          break;
        }
        TurnedMore(old(queues), old(attempts), old(books.admitted), before, tried, start.admitted, admission);
        scanIndex := scanIndex + 1;
        if admission == GateFull {
          SinceEndsWith(old(attempts), attempts, [Attempt(queues.hosts[0], GateFull)]);
          stop := GateClosed;
          break;
        }
        if admission == HostRefused {
          noProgress := noProgress + 1;
          if noProgress >= |queues.hosts| {
            AllInTurn(queues.hosts, attempts, refused);
            CountRefusals(queues.hosts);
            SinceEndsWith(old(attempts), attempts, Refusals(queues.hosts));
            stop := AllRefused;
            break;
          }
        } else {
          submitted, noProgress := submitted + 1, 0;
        }
      }
      if stop == CapacityUsed && submitted < capacity {
        stop := NothingDeferred;
      }
      TurnedFacts(old(queues), old(attempts), old(books.admitted), queues, attempts, books.admitted);
    }

    /** `_defer_execution_request`: the item starts a bucket, or joins the one its host has. */
    method Defer(item: Request)
      modifies this`queues
      ensures queues == Queues(old(queues.pending),
        if item.host in old(queues.buckets) then old(queues.hosts) else old(queues.hosts) + [item.host],
        old(queues.buckets)[item.host := Bucket(old(queues.buckets), item.host) + [item]])
    {
      if item.host !in queues.buckets {
        queues := queues.(hosts := queues.hosts + [item.host], buckets := queues.buckets[item.host := []]);
      }
      queues := queues.(buckets := queues.buckets[item.host := queues.buckets[item.host] + [item]]);
    }

    /**
     * The first pending entry: behind a bucket of its host it waits there, otherwise it is tried.  A full gate
     * puts it back in front, a refusal starts a bucket for it.
     */
    method TryFirstPending() returns (scanned: Scanned, ghost step: EntryStep)
      requires Valid() && queues.pending != []
      modifies this`queues, this`books, this`attempts
      ensures Valid()
      ensures Fits(old(queues), step) && queues == AfterEntry(old(queues), step)
      ensures scanned == match step
        case WaitsBehind => Behind
        case Tried(answer) => if answer == Admitted then Submitted else if answer == GateFull then PutBack else Behind
      ensures attempts == old(attempts) + TriesOf(old(queues.pending)[0].host, step)
      ensures books.admitted == old(books.admitted) + if step == Tried(Admitted) then [old(queues.pending)[0]] else []
      ensures scanned == Submitted ==> FlightGrew(old(books), books, 1)
      ensures scanned != Submitted ==> books == old(books)
    {
      hide Orderly, Balanced, Answered, CountOf;
      ghost var before, admitted := queues, books.admitted;
      var item := queues.pending[0];
      queues := queues.(pending := queues.pending[1..]);
      OrderlyDefer(requests, admitted, before);
      if item.host in queues.buckets {
        queues := queues.(buckets := queues.buckets[item.host := queues.buckets[item.host] + [item]]);
        assert queues == DeferFirst(before);
        step := WaitsBehind;
        return Behind, step;
      }
      BalancedAdmit(books, item);
      var admission := Admit(item);
      step := Tried(admission);
      match admission {
        case GateFull =>
          queues := queues.(pending := [item] + queues.pending);
          assert queues.pending == before.pending;
          scanned := PutBack;
        case HostRefused =>
          Defer(item);
          assert queues == DeferFirst(before);
          scanned := Behind;
        case Admitted =>
          OrderlyAdmit(requests, admitted, before);
          FlightAdmitted(old(books), item);
          scanned := Submitted;
      }
    }

    /**
     * The scan of the pending queue: each entry is admitted, or joins its host's bucket.  The queues are what the
     * answers make of them.  The scan leaves entries behind only when the capacity is used, at a full gate, or on
     * cancellation.
     */
    method FillPending(capacity: nat, submittedBefore: nat)
      returns (submitted: nat, cancelled: bool, ghost steps: seq<EntryStep>)
      requires Valid() && submittedBefore <= capacity
      modifies this`queues, this`books, this`attempts, this`checks
      ensures Valid()
      ensures checks >= old(checks)
      ensures if cancelled then !Quiet(env.cancels, old(checks), checks)
        else Passed(env.cancels, old(checks), checks, |steps|, 256)
      ensures submittedBefore <= submitted <= capacity
      ensures FlightGrew(old(books), books, submitted - submittedBefore)
      ensures old(attempts) <= attempts && ScanTaken(old(queues), old(attempts), queues, attempts, steps)
      ensures books.admitted == old(books.admitted) + AdmittedOf(old(queues.pending), steps)
      ensures cancelled || submitted == capacity || queues.pending == [] || GateWasFull(Since(old(attempts), attempts))
    {
      hide Orderly, Balanced, Answered, CountOf, FlightGrew, AfterEntry, GateWasFull, ScanTaken, Scanning, AdmittedOf, Fits, Passed, Quiet, Pauses;
      FlightUnchanged(books);
      PassedNone(env.cancels, checks, 256);
      NoStep(queues, attempts);
      submitted, cancelled, steps := submittedBefore, false, [];
      var scanCount := |queues.pending|;
      var scanIndex := 0;
      while scanIndex < scanCount
        invariant Valid()
        invariant submittedBefore <= submitted <= capacity && !cancelled && |steps| == scanIndex
        invariant checks >= old(checks) && Passed(env.cancels, old(checks), checks, scanIndex, 256)
        invariant scanIndex + |queues.pending| == scanCount && old(attempts) <= attempts
        invariant FlightGrew(old(books), books, submitted - submittedBefore)
        invariant ScanTaken(old(queues), old(attempts), queues, attempts, steps)
        invariant Scanning(old(queues), old(attempts), queues, attempts, steps)
        invariant books.admitted == old(books.admitted) + AdmittedOf(old(queues.pending), steps)
      {
        if submitted >= capacity || queues.pending == [] {
          break;
        }
        ghost var start := books;
        PassedMore(env.cancels, old(checks), checks, scanIndex, 256);
        cancelled := Checkpoint(scanIndex, 256);
        FlightAwaited(old(books), start, books, submitted - submittedBefore);
        if cancelled {
          break;
        }
        ghost var middle, earlier, before := books, attempts, queues;
        var scanned;
        ghost var step;
        scanned, step := TryFirstPending();
        EntryShortens(before, step);
        OneMoreStep(old(queues), old(attempts), before, earlier, steps, step);
        steps := steps + [step];
        if scanned == PutBack {
          GateMet(old(attempts), earlier, before.pending[0].host);
          break;
        }
        if scanned == Submitted {
          FlightAdded(old(books), middle, books, submitted - submittedBefore, 1);
          submitted := submitted + 1;
        }
        scanIndex := scanIndex + 1;
      }
    }

    /**
     * `_fill_async_execution_workers`: the turns of the deferred hosts, and then the scan of the pending queue.  It
     * never lifts the number of tasks in flight above the request limit it read, and ends below that limit only
     * at a full gate or when everything else was tried.
     */
    method Fill(limit: nat, pressure: bool)
      returns (submitted: nat, result: FillResult, ghost middle: Queues, ghost between: seq<Attempt>, ghost steps: seq<EntryStep>)
      requires Valid()
      modifies this`queues, this`books, this`attempts, this`checks
      ensures Valid()
      ensures result == ResourcePressure <==> pressure
      ensures pressure ==> queues == old(queues) && books == old(books) && attempts == old(attempts) && checks == old(checks)
      ensures FlightGrew(old(books), books, submitted)
      ensures submitted > 0 ==> |books.tasks| <= limit
      ensures TurnsTaken(old(queues), old(attempts), middle, between)
      ensures ScanTaken(middle, between, queues, attempts, steps)
      ensures old(attempts) <= between <= attempts
      ensures checks >= old(checks) && (result == FillCancelled <==> !Quiet(env.cancels, old(checks), checks))
      ensures result == Filled ==>
        checks == old(checks) + Pauses(|Since(old(attempts), between)|, 64) + Pauses(|steps|, 256)
      ensures books.admitted == old(books.admitted)
        + AdmittedTurns(old(queues), Since(old(attempts), between)) + AdmittedOf(middle.pending, steps)
      ensures result == Filled ==> Served(books, queues, Since(old(attempts), attempts), limit)
    {
      hide Orderly, Balanced, Answered, CountOf, Refusals, TurnsTaken, Rotating, ScanTaken, Scanning, AdmittedTurns, AdmittedOf;
      submitted, result, middle, between, steps := 0, Filled, queues, attempts, [];
      NothingTried(queues, attempts);
      NoStep(queues, attempts);
      assert books.admitted == books.admitted + [] + [];
      if pressure {
        result := ResourcePressure;
        return;
      }
      var capacity := if limit > |books.tasks| then limit - |books.tasks| else 0;
      if capacity == 0 || (queues.pending == [] && queues.hosts == []) {
        return;
      }
      var stop;
      submitted, stop := FillDeferred(capacity);
      ghost var passed := checks;
      middle, between := queues, attempts;
      NoStep(queues, attempts);
      assert books.admitted == books.admitted + [];
      if stop == Interrupted {
        result := FillCancelled;
        return;
      }
      if stop == GateClosed {
        EndsAtGate(Since(old(attempts), attempts), queues.hosts[0]);
        return;
      }
      var cancelled;
      submitted, cancelled, steps := FillPending(capacity, submitted);
      QuietTwice(env.cancels, old(checks), passed, checks);
      if cancelled {
        result := FillCancelled;
      } else if GateWasFull(Since(between, attempts)) {
        GateSince(old(attempts), between, attempts);
      } else if |books.tasks| < limit {
        assert stop == AllRefused || middle.hosts == [];
        AllTried(old(attempts), middle, between, queues, attempts, steps);
      }
    }

    /**
     * The tasks that have finished leave flight one at a time, in any order, each with its outcome; tasks that finish
     * meanwhile stay for the next turn.  A task that was cancelled, or a write that fails, ends the run.
     */
    method Collect() returns (status: RunStatus)
      requires Balanced(books) && Counted(env.succeeds, books)
      modifies this`books, this`writes
      ensures Balanced(books) && Counted(env.succeeds, books) && status != Completed
      ensures books.admitted == old(books.admitted) && books.abandoned == old(books.abandoned)
      ensures old(books.recorded) <= books.recorded && writes == old(writes) + |books.recorded| - |old(books.recorded)|
      ensures status == Failed <==> !Quiet(env.writeFails, old(writes), writes)
      ensures status == Cancelled ==>
        && !NoneCut(env.cutOff, Marked(old(books.tasks), Finished(old(books.tasks))))
        && exists request :: env.cutOff(request) && books.dropped == old(books.dropped) + [request]
      ensures status != Cancelled ==> books.dropped == old(books.dropped)
      ensures status == InProgress ==>
        && multiset(books.recorded) == multiset(old(books.recorded)) + Marked(old(books.tasks), Finished(old(books.tasks)))
        && NoneCut(env.cutOff, Marked(old(books.tasks), Finished(old(books.tasks))))
    {
      hide Balanced, Marked, Counted, Collecting, NoneCut, Quiet, Without;
      status := InProgress;
      var marks := seq(|books.tasks|, i requires 0 <= i < |books.tasks| reads this => books.tasks[i].finished);
      CollectStart(env.cutOff, books, marks);
      NeverYet(env.writeFails, writes);
      while exists i :: 0 <= i < |marks| && marks[i]
        invariant Balanced(books) && Counted(env.succeeds, books) && Collecting(env.cutOff, old(books), books, marks)
        invariant writes == old(writes) + |books.recorded| - |old(books.recorded)| && writes >= old(writes)
        invariant Quiet(env.writeFails, old(writes), writes)
        decreases |marks|
      {
        var i :| 0 <= i < |marks| && marks[i];
        CollectFacts(env.cutOff, old(books), books, marks);
        var request := books.tasks[i].request;
        BalancedRecord(books, i, env.succeeds(request));
        if env.cutOff(request) {
          CutFound(env.cutOff, old(books), books, marks, i);
          CountedDropped(env.succeeds, books, i);
          books := DropBooks(books, i);
          return Cancelled;
        }
        CountedRecord(env.succeeds, books, i);
        CollectRecord(env.cutOff, old(books), books, marks, i, env.succeeds(request));
        books := RecordBooks(books, i, env.succeeds(request));
        marks := Without(marks, i);
        CollectFacts(env.cutOff, old(books), books, marks);
        QuietOneMore(env.writeFails, old(writes), writes);
        writes := writes + 1;
        if env.writeFails(writes - 1) {
          return Failed;
        }
        ghost var before := books;
        Await();
        CountedAwaited(env.succeeds, before, books);
        CollectAwait(env.cutOff, old(books), before, marks, books);
      }
      CollectFacts(env.cutOff, old(books), books, marks);
      CollectEnd(env.cutOff, old(books), books, marks);
    }

    /** Finished tasks are collected; without any, what was written so far is flushed if that is due. */
    method Gather() returns (status: RunStatus)
      requires Balanced(books) && Counted(env.succeeds, books)
      modifies this`books, this`writes
      ensures Balanced(books) && Counted(env.succeeds, books) && status != Completed
      ensures books.admitted == old(books.admitted) && books.abandoned == old(books.abandoned)
      ensures writes >= old(writes) && (status == Failed <==> !Quiet(env.writeFails, old(writes), writes))
      ensures status == Cancelled ==> !NoneCut(env.cutOff, Marked(old(books.tasks), Finished(old(books.tasks))))
      ensures status == InProgress ==>
        && books.dropped == old(books.dropped) && writes > old(writes)
        && multiset(books.recorded) == multiset(old(books.recorded)) + Marked(old(books.tasks), Finished(old(books.tasks)))
        && NoneCut(env.cutOff, Marked(old(books.tasks), Finished(old(books.tasks))))
    {
      hide Balanced, Marked, Counted;
      ghost var marks := Finished(books.tasks);
      if exists i :: 0 <= i < |books.tasks| && books.tasks[i].finished {
        var i :| 0 <= i < |books.tasks| && books.tasks[i].finished;
        assert marks[i];
        SomeMarked(books.tasks, marks);
        status := Collect();
        assert status == InProgress ==> |multiset(books.recorded)| > |multiset(old(books.recorded))|;
      } else {
        NoneMarked(books.tasks, marks);
        writes := writes + 1;
        status := if env.writeFails(writes - 1) then Failed else InProgress;
      }
    }

    /**
     * One turn of the main loop of `_execute_async`; `seen` are the books when its wait for finished tasks is over.
     * A turn that does not end the run records exactly the tasks that had finished then, and fills up again.
     */
    method Step(limit: nat, pressure: bool) returns (status: RunStatus, ghost seen: Books)
      requires Valid()
      modifies this
      ensures Valid() && status != Completed
      ensures Awaited(old(books), seen) && (status != Cancelled ==> AllStarted(seen.tasks))
      ensures old(books.admitted) <= books.admitted && books.abandoned == old(books.abandoned)
      ensures old(attempts) <= attempts && checks > old(checks) && writes >= old(writes)
      ensures !Quiet(env.cancels, old(checks), checks) ==> status == Cancelled
      ensures status == Cancelled ==>
        !Quiet(env.cancels, old(checks), checks) || !NoneCut(env.cutOff, Marked(seen.tasks, Finished(seen.tasks)))
      ensures status == Failed ==> pressure || !Quiet(env.writeFails, old(writes), writes)
      ensures !Quiet(env.writeFails, old(writes), writes) ==> status == Failed
      ensures status == InProgress ==>
        && !pressure && books.dropped == old(books.dropped) && writes > old(writes)
        && multiset(books.recorded) == multiset(old(books.recorded)) + Marked(seen.tasks, Finished(seen.tasks))
        && NoneCut(env.cutOff, Marked(seen.tasks, Finished(seen.tasks)))
        && Served(books, queues, Since(old(attempts), attempts), limit)
    {
      hide Orderly, Balanced, Answered, CountOf, FlightGrew, Marked, Served, Quiet, NoneCut, TurnsTaken, ScanTaken, AdmittedTurns, AdmittedOf;
      NeverYet(env.cancels, checks);
      NeverYet(env.writeFails, writes);
      QuietOneMore(env.cancels, checks, checks);
      QuietOneMore(env.writeFails, writes, writes);
      var cancelled := Checkpoint(0, 1);
      seen := books;
      if cancelled {
        return Cancelled, seen;
      }
      Await();
      AwaitedTwice(old(books), seen, books);
      seen := books;
      status := Gather();
      if status != InProgress {
        return;
      }
      ghost var before, passed := books, checks;
      var _, result, _, _, _ := Fill(limit, pressure);
      QuietTwice(env.cancels, old(checks), passed, checks);
      FlightFacts(before, books);
      status := match result case Filled => InProgress case FillCancelled => Cancelled case ResourcePressure => Failed;
    }

    /**
     * The `finally` of the run: tasks still in flight are cancelled, awaited and forgotten.  A task that took its
     * first step gives back what it holds; one that did not never runs its own `finally`.
     */
    method Shutdown()
      requires Balanced(books)
      modifies this`books
      ensures Balanced(books) && books.tasks == []
      ensures books.admitted == old(books.admitted) && books.recorded == old(books.recorded)
      ensures books.successCount == old(books.successCount) && books.failureCount == old(books.failureCount)
      ensures books.abandoned == old(books.abandoned) + NotStarted(old(books.tasks))
      ensures books.leases == HostsOf(books.abandoned) && books.slots == |books.abandoned|
      ensures old(books.abandoned) == [] ==> (books.leases == multiset{} <==> AllStarted(old(books.tasks)))
      ensures old(books.tasks) == [] ==> books == old(books)
    {
      hide Balanced, NotStarted, HostsOf;
      while books.tasks != []
        invariant Balanced(books)
        invariant books.admitted == old(books.admitted) && books.recorded == old(books.recorded)
        invariant books.successCount == old(books.successCount) && books.failureCount == old(books.failureCount)
        invariant books.abandoned + NotStarted(books.tasks) == old(books.abandoned) + NotStarted(old(books.tasks))
        invariant old(books.tasks) == [] ==> books == old(books)
        decreases |books.tasks|
      {
        ghost var before := books;
        CancelFirst();
        assert before.abandoned + NotStarted(before.tasks) == books.abandoned + NotStarted(books.tasks);
      }
      NoTasks();
      HeldAtEnd(books);
      NoneNotStarted(old(books.tasks));
      assert books.abandoned + [] == books.abandoned;
    }

    method CancelFirst()
      requires Balanced(books) && books.tasks != []
      modifies this`books
      ensures Balanced(books) && books.tasks == old(books.tasks)[1..]
      ensures books.admitted == old(books.admitted) && books.recorded == old(books.recorded)
      ensures books.successCount == old(books.successCount) && books.failureCount == old(books.failureCount)
      ensures books.abandoned + NotStarted(books.tasks) == old(books.abandoned) + NotStarted(old(books.tasks))
    {
      hide Balanced;
      var task := books.tasks[0];
      FirstNotStarted(books.tasks, books.abandoned);
      if !task.started {
        BalancedAbandon(books, 0);
        books := AbandonBooks(books, 0);
      } else {
        if !task.finished {
          BalancedFinish(books, 0);
          books := FinishBooks(books, 0);
        }
        BalancedRecord(books, 0, false);
        books := DropBooks(books, 0);
      }
    }

    /** The first write and the first fill. */
    method Begin() returns (status: RunStatus)
      requires New()
      modifies this
      ensures Valid() && status != Completed && writes == 1
      ensures Explained(env, books.admitted, checks, writes, status, 0)
      ensures status == InProgress ==> books.dropped == [] && FilledUp(books, queues, attempts, env.limits(0))
    {
      hide Orderly, Balanced, Answered, CountOf, FlightGrew, TurnsTaken, ScanTaken, Served, AdmittedTurns, AdmittedOf, Quiet, Explained,
        FilledUp;
      OrderlyNew(requests);
      NewBooksBalanced();
      NothingAsked(env.ask);
      CountedNew(env.succeeds);
      NeverYet(env.cancels, 0);
      status, writes := Failed, 1;
      if !env.writeFails(0) {
        ghost var before := books;
        var _, result, _, _, _ := Fill(env.limits(0), env.pressure(0));
        FlightFacts(before, books);
        status := match result case Filled => InProgress case FillCancelled => Cancelled case ResourcePressure => Failed;
        if status == InProgress {
          JustFilled(books, queues, [], attempts, env.limits(0));
        }
      }
      ExplainedStart(env, books.admitted, checks, status);
    }

    /** The last checkpoint and the last write. */
    method Finish(ghost turns: nat) returns (status: RunStatus)
      requires Valid() && Explained(env, books.admitted, checks, writes, InProgress, turns)
      modifies this`books, this`checks, this`writes
      ensures Valid() && status != InProgress && Awaited(old(books), books)
      ensures Explained(env, books.admitted, checks, writes, status, turns)
    {
      hide Orderly, Balanced, Answered, CountOf, Explained;
      ExplainedEnd(env, books.admitted, checks, writes, turns);
      var cancelled := Checkpoint(0, 1);
      CountedAwaited(env.succeeds, old(books), books);
      if cancelled {
        return Cancelled;
      }
      writes := writes + 1;
      status := if env.writeFails(writes - 1) then Failed else Completed;
    }

    /**
     * The body of `_execute_async`: fill up, take turns until nothing is left, and flush.  A run is cancelled, fails or
     * goes on only for the reasons stated; after its last turn it has filled up to the limit that it read then.
     */
    method Drive(turns: nat) returns (status: RunStatus)
      requires New()
      modifies this
      ensures Valid() && Explained(env, books.admitted, checks, writes, status, turns)
      ensures status == Completed ==> queues.pending == [] && queues.hosts == [] && books.tasks == [] && books.dropped == []
      ensures status == InProgress ==>
        && !(queues.pending == [] && queues.hosts == [] && books.tasks == []) && checks >= turns && writes > turns
        && FilledUp(books, queues, attempts, env.limits(turns))
    {
      hide Orderly, Balanced, Answered, Counted, Served, Marked, NoneCut, Explained, Quiet, FilledUp;
      status := Begin();
      var turn := 0;
      while status == InProgress && turn < turns && (queues.pending != [] || queues.hosts != [] || books.tasks != [])
        invariant Valid() && status != Completed && turn <= turns
        invariant Explained(env, books.admitted, checks, writes, status, turn)
        invariant status == InProgress ==> books.dropped == [] && checks >= turn && writes > turn
        invariant status == InProgress ==> FilledUp(books, queues, attempts, env.limits(turn))
      {
        ghost var passed, written, earlier, tried := checks, writes, books, attempts;
        ghost var seen;
        status, seen := Step(env.limits(turn + 1), env.pressure(turn + 1));
        if !NoneCut(env.cutOff, Marked(seen.tasks, Finished(seen.tasks))) {
          DoneAdmitted(env.cutOff, earlier, seen, books.admitted);
        }
        ExplainedMore(env, earlier.admitted, passed, written, turn, books.admitted, checks, writes, status);
        if status == InProgress {
          JustFilled(books, queues, tried, attempts, env.limits(turn + 1));
        }
        turn := turn + 1;
      }
      ExplainedLonger(env, books.admitted, checks, writes, status, turn, turns);
      if status == InProgress && queues.pending == [] && queues.hosts == [] && books.tasks == [] {
        status := Finish(turns);
      }
    }

    /**
     * `_execute_async`, observed for at most `turns` turns of its main loop.  A completed run admitted and
     * recorded every request exactly once, each host's in order, counted each success and failure, and holds
     * nothing.  However a run ends, exactly the leases and slots of the tasks that were cancelled before their
     * first step are still held.  `failures` is the failure count that is stored: a failed run counts as one more.
     * Without cancellation, failing writes and resource pressure a run is completed or goes on.
     */
    method Execute(turns: nat) returns (status: RunStatus, failures: nat)
      requires New()
      modifies this
      ensures Valid() && Explained(env, books.admitted, checks, writes, status, turns)
      ensures failures == books.failureCount + if status == Failed then 1 else 0
      ensures status == InProgress ==>
        && !(queues.pending == [] && queues.hosts == [] && books.tasks == []) && checks >= turns && writes > turns
        && FilledUp(books, queues, attempts, env.limits(turns))
      ensures status != InProgress ==>
        && books.tasks == [] && books.leases == HostsOf(books.abandoned) && books.slots == |books.abandoned|
        && multiset(books.abandoned) <= multiset(books.dropped)
      ensures status == Completed ==>
        && books.dropped == [] && books.leases == multiset{} && books.slots == 0
        && multiset(books.recorded) == multiset(books.admitted) == multiset(requests)
        && books.requestCount == |requests| && books.successCount == CountOf(env.succeeds, requests)
        && books.failureCount == |requests| - CountOf(env.succeeds, requests)
        && forall host :: OfHost(books.admitted, host) == OfHost(requests, host)
    {
      hide Orderly, Balanced, Answered, CountOf, OfHost, HostsOf, Served, FilledUp, Explained;
      status := Drive(turns);
      failures := books.failureCount + if status == Failed then 1 else 0;
      if status == InProgress {
        return;
      }
      Shutdown();
      AbandonedDropped(books);
      if status == Completed {
        AllAdmitted(requests, books.admitted, queues);
        AllRecorded(books);
        HeldAtEnd(books);
        CountPermuted(env.succeeds, books.recorded, requests);
        assert |requests| == |multiset(requests)| == |books.admitted|;
      }
    }
  }

  /** In every state each request is pending, deferred by its own host, in flight, recorded or dropped, once. */
  lemma EachInOneState(run: AsyncRun, request: Request)
    requires run.Valid()
    ensures multiset(run.requests)[request] ==
      multiset(run.queues.pending)[request] + Deferred(run.queues, request) + Carried(run.books.tasks)[request]
      + multiset(run.books.recorded)[request] + multiset(run.books.dropped)[request]
    ensures forall host :: host != request.host ==> request !in Bucket(run.queues.buckets, host)
  {
    hide Orderly;
    EachInOnePlace(run.requests, run.books.admitted, run.queues, request);
  }

  lemma AbandonedDropped(books: Books)
    requires Balanced(books)
    ensures multiset(books.abandoned) <= multiset(books.dropped)
  {
  }

  lemma NoTasks()
    ensures NotStarted([]) == []
  {
  }

  lemma FirstNotStarted(tasks: seq<Task>, abandoned: seq<Request>)
    requires tasks != []
    ensures !tasks[0].started ==> abandoned + NotStarted(tasks) == (abandoned + [tasks[0].request]) + NotStarted(tasks[1..])
    ensures tasks[0].started ==> NotStarted(tasks) == NotStarted(tasks[1..])
  {
  }

  /**
   * A cancellation seen at the first turn after one admission leaves a lease and a slot held for good: the
   * books are balanced before and after, the task never took its first step, and nothing is in flight.
   */
  lemma CancelledBeforeFirstStep(request: Request)
    ensures var filled := AdmitBooks(NEW_BOOKS, request);
      var ended := AbandonBooks(filled, 0);
      && Balanced(filled) && NotStarted(filled.tasks) == [request]
      && Balanced(ended) && ended.tasks == [] && ended.abandoned == [request]
      && ended.leases == multiset{request.host} && ended.slots == 1
  {
    hide Balanced, NotStarted, Without;
    var filled := AdmitBooks(NEW_BOOKS, request);
    NewBooksBalanced();
    BalancedAdmit(NEW_BOOKS, request);
    BalancedAbandon(filled, 0);
    FirstNotStarted(filled.tasks, []);
    NoTasks();
    WithoutLast(filled.tasks);
    assert filled.tasks[1..] == [] && filled.tasks[..0] == [];
    assert [] + NotStarted(filled.tasks) == NotStarted(filled.tasks);
    assert ([] + [request]) + [] == [request];
  }
}
