/** Bookkeeping notions for one crawl run: requests by host, tasks in flight, resources they hold. */
module RunLedger {
  import opened Sequences

  /** An entry of the request queue; the host is a function of the request's URL. */
  datatype Request = Request(index: nat, host: string)

  /**
   * An admitted request; `started` once its coroutine took its first step, `finished` once its boundary has
   * released lease and gate slot.
   */
  datatype Task = Task(id: nat, request: Request, started: bool, finished: bool)

  ghost function OfHost(requests: seq<Request>, host: string): seq<Request> {
    if requests == [] then []
    else (if requests[0].host == host then [requests[0]] else []) + OfHost(requests[1..], host)
  }

  lemma OfHostFirst(requests: seq<Request>, host: string)
    requires requests != []
    ensures OfHost(requests, host) == (if requests[0].host == host then [requests[0]] else []) + OfHost(requests[1..], host)
  {
  }

  lemma OfNoRequests(host: string)
    ensures OfHost([], host) == []
  {
  }

  lemma {:induction false} OfHostConcat(first: seq<Request>, second: seq<Request>, host: string)
    ensures OfHost(first + second, host) == OfHost(first, host) + OfHost(second, host)
  {
    hide OfHost;
    if first == [] {
      OfNoRequests(host);
      assert first + second == second;
      assert OfHost(first, host) + OfHost(second, host) == OfHost(second, host);
    } else {
      OfHostConcat(first[1..], second, host);
      OfHostFirst(first, host);
      OfHostFirst(first + second, host);
      assert (first + second)[1..] == first[1..] + second;
      AppendAssociative(if first[0].host == host then [first[0]] else [], OfHost(first[1..], host), OfHost(second, host));
    }
  }

  lemma OfHostAppend(requests: seq<Request>, last: Request, host: string)
    ensures OfHost(requests + [last], host) == OfHost(requests, host) + if last.host == host then [last] else []
  {
    OfHostConcat(requests, [last], host);
    assert [last][1..] == [];
  }

  lemma {:induction false} OfHostMembers(requests: seq<Request>, host: string)
    ensures forall request :: request in OfHost(requests, host) <==> request in requests && request.host == host
  {
    if requests != [] {
      OfHostMembers(requests[1..], host);
      assert requests == [requests[0]] + requests[1..];
    }
  }

  lemma {:induction false} OfHostCount(requests: seq<Request>, request: Request)
    ensures multiset(OfHost(requests, request.host))[request] == multiset(requests)[request]
  {
    if requests != [] {
      OfHostCount(requests[1..], request);
      assert requests == [requests[0]] + requests[1..];
    }
  }

  // ----- Tasks in flight -----

  ghost function Carried(tasks: seq<Task>): multiset<Request> {
    if tasks == [] then multiset{}
    else Carried(tasks[..|tasks| - 1]) + multiset{tasks[|tasks| - 1].request}
  }

  /** The hosts for which an unfinished task holds a lease. */
  ghost function Leased(tasks: seq<Task>): multiset<string> {
    if tasks == [] then multiset{}
    else
      var last := tasks[|tasks| - 1];
      Leased(tasks[..|tasks| - 1]) + if last.finished then multiset{} else multiset{last.request.host}
  }

  lemma TasksAppend(tasks: seq<Task>, last: Task)
    ensures Carried(tasks + [last]) == Carried(tasks) + multiset{last.request}
    ensures Leased(tasks + [last]) == Leased(tasks) + if last.finished then multiset{} else multiset{last.request.host}
  {
    assert (tasks + [last])[..|tasks|] == tasks;
  }

  lemma {:induction false} TasksFinish(tasks: seq<Task>, i: nat)
    requires i < |tasks| && !tasks[i].finished
    ensures tasks[i].request.host in Leased(tasks)
    ensures Leased(tasks[i := tasks[i].(finished := true)]) == Leased(tasks) - multiset{tasks[i].request.host}
    ensures Carried(tasks[i := tasks[i].(finished := true)]) == Carried(tasks)
  {
    var last := |tasks| - 1;
    var done := tasks[i := tasks[i].(finished := true)];
    if i == last {
      assert done[..last] == tasks[..last];
    } else {
      TasksFinish(tasks[..last], i);
      assert done[..last] == tasks[..last][i := tasks[i].(finished := true)];
    }
  }

  lemma {:induction false} TasksRemove(tasks: seq<Task>, i: nat)
    requires i < |tasks| && tasks[i].finished
    ensures Leased(Without(tasks, i)) == Leased(tasks)
    ensures tasks[i].request in Carried(tasks)
    ensures Carried(Without(tasks, i)) == Carried(tasks) - multiset{tasks[i].request}
  {
    hide Leased, Carried, Without;
    var before, last := tasks[..|tasks| - 1], tasks[|tasks| - 1];
    SplitLast(tasks);
    TasksAppend(before, last);
    if i == |before| {
      WithoutLast(tasks);
      TakeBack(Carried(before), last.request);
    } else {
      assert before[i] == tasks[i];
      TasksRemove(before, i);
      WithoutBeforeLast(tasks, i);
      TasksAppend(Without(before, i), last);
      TakeThenAdd(Carried(before), tasks[i].request, multiset{last.request});
    }
  }

  lemma {:induction false} TasksStart(tasks: seq<Task>, i: nat)
    requires i < |tasks|
    ensures Leased(tasks[i := tasks[i].(started := true)]) == Leased(tasks)
    ensures Carried(tasks[i := tasks[i].(started := true)]) == Carried(tasks)
  {
    var last := |tasks| - 1;
    var begun := tasks[i := tasks[i].(started := true)];
    if i == last {
      assert begun[..last] == tasks[..last];
    } else {
      TasksStart(tasks[..last], i);
      assert begun[..last] == tasks[..last][i := tasks[i].(started := true)];
    }
  }

  /** The requests of the tasks that have not taken their first step. */
  ghost function NotStarted(tasks: seq<Task>): seq<Request> {
    if tasks == [] then []
    else (if tasks[0].started then [] else [tasks[0].request]) + NotStarted(tasks[1..])
  }

  ghost predicate AllStarted(tasks: seq<Task>) {
    forall task :: task in tasks ==> task.started
  }

  lemma {:induction false} NoneNotStarted(tasks: seq<Task>)
    ensures NotStarted(tasks) == [] <==> AllStarted(tasks)
  {
    if tasks != [] {
      NoneNotStarted(tasks[1..]);
      assert tasks == [tasks[0]] + tasks[1..];
    }
  }

  // ----- The tasks that had finished at some point -----

  ghost function Finished(tasks: seq<Task>): seq<bool> {
    seq(|tasks|, i requires 0 <= i < |tasks| => tasks[i].finished)
  }

  /** The requests of the marked tasks. */
  ghost function Marked(tasks: seq<Task>, marks: seq<bool>): multiset<Request>
    requires |tasks| == |marks|
  {
    if tasks == [] then multiset{}
    else
      var last := |tasks| - 1;
      Marked(tasks[..last], marks[..last]) + if marks[last] then multiset{tasks[last].request} else multiset{}
  }

  lemma MarkedAppend(tasks: seq<Task>, marks: seq<bool>, task: Task, mark: bool)
    requires |tasks| == |marks|
    ensures Marked(tasks + [task], marks + [mark]) == Marked(tasks, marks) + if mark then multiset{task.request} else multiset{}
  {
    assert (tasks + [task])[..|tasks|] == tasks && (marks + [mark])[..|marks|] == marks;
  }

  lemma {:induction false} MarkedRemove(tasks: seq<Task>, marks: seq<bool>, i: nat)
    requires |tasks| == |marks| && i < |tasks| && marks[i]
    ensures tasks[i].request in Marked(tasks, marks)
    ensures Marked(Without(tasks, i), Without(marks, i)) == Marked(tasks, marks) - multiset{tasks[i].request}
  {
    hide Marked, Without;
    var before, last := tasks[..|tasks| - 1], tasks[|tasks| - 1];
    var earlier, mark := marks[..|marks| - 1], marks[|marks| - 1];
    SplitLast(tasks);
    SplitLast(marks);
    MarkedAppend(before, earlier, last, mark);
    if i == |before| {
      WithoutLast(tasks);
      WithoutLast(marks);
      TakeBack(Marked(before, earlier), last.request);
    } else {
      assert before[i] == tasks[i] && earlier[i] == marks[i];
      MarkedRemove(before, earlier, i);
      WithoutBeforeLast(tasks, i);
      WithoutBeforeLast(marks, i);
      WithoutSize(before, i);
      WithoutSize(earlier, i);
      MarkedAppend(Without(before, i), Without(earlier, i), last, mark);
      TakeThenAdd(Marked(before, earlier), tasks[i].request, if mark then multiset{last.request} else multiset{});
    }
  }

  lemma {:induction false} MarkedSame(one: seq<Task>, other: seq<Task>, marks: seq<bool>)
    requires |one| == |other| == |marks| && forall i :: 0 <= i < |one| ==> one[i].request == other[i].request
    ensures Marked(one, marks) == Marked(other, marks)
  {
    if one != [] {
      var last := |one| - 1;
      MarkedSame(one[..last], other[..last], marks[..last]);
    }
  }

  lemma {:induction false} MarkedCarried(tasks: seq<Task>, others: seq<Task>, marks: seq<bool>)
    requires |tasks| == |others| == |marks| && forall i :: 0 <= i < |tasks| ==> tasks[i].request == others[i].request
    ensures Marked(others, marks) <= Carried(tasks)
  {
    if tasks != [] {
      var last := |tasks| - 1;
      MarkedCarried(tasks[..last], others[..last], marks[..last]);
    }
  }

  lemma {:induction false} NoneMarked(tasks: seq<Task>, marks: seq<bool>)
    requires |tasks| == |marks| && forall i :: 0 <= i < |marks| ==> !marks[i]
    ensures Marked(tasks, marks) == multiset{}
  {
    if tasks != [] {
      NoneMarked(tasks[..|tasks| - 1], marks[..|marks| - 1]);
    }
  }

  // ----- Successes -----

  ghost function CountOf(succeeds: Request -> bool, requests: seq<Request>): nat {
    if requests == [] then 0
    else CountOf(succeeds, requests[..|requests| - 1]) + if succeeds(requests[|requests| - 1]) then 1 else 0
  }

  lemma CountMore(succeeds: Request -> bool, requests: seq<Request>, last: Request)
    ensures CountOf(succeeds, requests + [last]) == CountOf(succeeds, requests) + if succeeds(last) then 1 else 0
  {
    assert (requests + [last])[..|requests|] == requests;
  }

  lemma {:induction false} CountWithout(succeeds: Request -> bool, requests: seq<Request>, i: nat)
    requires i < |requests|
    ensures CountOf(succeeds, requests) == CountOf(succeeds, Without(requests, i)) + if succeeds(requests[i]) then 1 else 0
  {
    hide Without;
    if i == |requests| - 1 {
      WithoutLast(requests);
    } else {
      var before, last := requests[..|requests| - 1], requests[|requests| - 1];
      CountWithout(succeeds, before, i);
      WithoutBeforeLast(requests, i);
      CountMore(succeeds, Without(before, i), last);
    }
  }

  lemma {:induction false} CountPermuted(succeeds: Request -> bool, one: seq<Request>, other: seq<Request>)
    requires multiset(one) == multiset(other)
    ensures CountOf(succeeds, one) == CountOf(succeeds, other)
    decreases |one|
  {
    hide Without;
    assert |one| == |multiset(one)| == |multiset(other)| == |other|;
    if one != [] {
      var last := |one| - 1;
      assert one[last] in multiset(other);
      var i :| 0 <= i < |other| && other[i] == one[last];
      WithoutBoth(one, last, other, i);
      WithoutSize(one, last);
      CountPermuted(succeeds, Without(one, last), Without(other, i));
      CountWithout(succeeds, one, last);
      CountWithout(succeeds, other, i);
    }
  }

  ghost function HostsOf(requests: seq<Request>): multiset<string> {
    if requests == [] then multiset{}
    else HostsOf(requests[..|requests| - 1]) + multiset{requests[|requests| - 1].host}
  }

  lemma HostsAppend(requests: seq<Request>, last: Request)
    ensures HostsOf(requests + [last]) == HostsOf(requests) + multiset{last.host}
  {
    assert (requests + [last])[..|requests|] == requests;
  }

  lemma {:induction false} HostsCount(requests: seq<Request>)
    ensures |HostsOf(requests)| == |requests|
  {
    if requests != [] {
      HostsCount(requests[..|requests| - 1]);
    }
  }

  lemma {:induction false} NothingLeased(tasks: seq<Task>)
    requires forall task :: task in tasks ==> task.finished
    ensures Leased(tasks) == multiset{}
  {
    if tasks != [] {
      NothingLeased(tasks[..|tasks| - 1]);
    }
  }

  // ----- The books of a run -----

  /**
   * What a run holds and what it has done: the tasks in flight, the host leases and gate slots held
   * for them, the counters, and the history of admissions, recorded outcomes and dropped requests.
   * `abandoned` are the dropped requests whose task was cancelled before its first step.
   */
  datatype Books = Books(tasks: seq<Task>, leases: multiset<string>, slots: int, nextTask: nat,
                         requestCount: nat, successCount: nat, failureCount: nat,
                         admitted: seq<Request>, recorded: seq<Request>, dropped: seq<Request>,
                         abandoned: seq<Request>)

  const NEW_BOOKS := Books([], multiset{}, 0, 0, 0, 0, 0, [], [], [], [])

  /**
   * Every admitted request is in flight, recorded or dropped, once; and the run holds one lease and
   * one gate slot for each unfinished task and each task abandoned before its first step, and nothing else.
   */
  ghost predicate Balanced(books: Books) {
    && multiset(books.admitted) == Carried(books.tasks) + multiset(books.recorded) + multiset(books.dropped)
    && books.leases == Leased(books.tasks) + HostsOf(books.abandoned)
    && multiset(books.abandoned) <= multiset(books.dropped)
    && (forall task :: task in books.tasks && task.finished ==> task.started)
    && books.slots == |books.leases|
    && books.requestCount == |books.admitted|
    && books.successCount + books.failureCount == |books.recorded|
  }

  lemma NewBooksBalanced()
    ensures Balanced(NEW_BOOKS)
  {
  }

  /** A request enters flight with a lease of its host and a gate slot. */
  function AdmitBooks(books: Books, request: Request): Books {
    books.(tasks := books.tasks + [Task(books.nextTask, request, false, false)], nextTask := books.nextTask + 1,
           leases := books.leases + multiset{request.host}, slots := books.slots + 1,
           requestCount := books.requestCount + 1, admitted := books.admitted + [request])
  }

  lemma BalancedAdmit(books: Books, request: Request)
    requires Balanced(books)
    ensures Balanced(AdmitBooks(books, request))
  {
    hide Carried, Leased;
    TasksAppend(books.tasks, Task(books.nextTask, request, false, false));
    CountAppend(books.admitted, request);
  }

  /** A task takes its first step. */
  function StartBooks(books: Books, i: nat): Books
    requires i < |books.tasks|
  {
    books.(tasks := books.tasks[i := books.tasks[i].(started := true)])
  }

  lemma BalancedStart(books: Books, i: nat)
    requires Balanced(books) && i < |books.tasks|
    ensures Balanced(StartBooks(books, i))
  {
    hide Carried, Leased, HostsOf;
    TasksStart(books.tasks, i);
  }

  /** A started task runs to its end and gives back its lease and its slot. */
  function FinishBooks(books: Books, i: nat): Books
    requires i < |books.tasks|
  {
    books.(tasks := books.tasks[i := books.tasks[i].(finished := true)],
           leases := books.leases - multiset{books.tasks[i].request.host}, slots := books.slots - 1)
  }

  lemma BalancedFinish(books: Books, i: nat)
    requires Balanced(books) && i < |books.tasks| && books.tasks[i].started && !books.tasks[i].finished
    ensures books.tasks[i].request.host in books.leases && books.slots > 0
    ensures Balanced(FinishBooks(books, i))
  {
    hide Carried, Leased, HostsOf;
    TasksFinish(books.tasks, i);
    TakeThenAdd(Leased(books.tasks), books.tasks[i].request.host, HostsOf(books.abandoned));
  }

  /** A task is cancelled before its first step: nothing gives back its lease and its slot. */
  function AbandonBooks(books: Books, i: nat): Books
    requires i < |books.tasks|
  {
    var request := books.tasks[i].request;
    books.(tasks := Without(books.tasks, i), dropped := books.dropped + [request], abandoned := books.abandoned + [request])
  }

  lemma BalancedAbandon(books: Books, i: nat)
    requires Balanced(books) && i < |books.tasks| && !books.tasks[i].started
    ensures Balanced(AbandonBooks(books, i))
  {
    hide Carried, Leased, HostsOf;
    var task := books.tasks[i];
    assert task in books.tasks;
    var ended := books.tasks[i := task.(finished := true)];
    TasksFinish(books.tasks, i);
    TasksRemove(ended, i);
    assert Without(ended, i) == Without(books.tasks, i);
    HostsAppend(books.abandoned, task.request);
    CountAppend(books.dropped, task.request);
    CountAppend(books.abandoned, task.request);
    LeaseMoves(Leased(books.tasks), task.request.host, HostsOf(books.abandoned));
    FewerTasks(books.tasks, i);
  }

  lemma LeaseMoves(held: multiset<string>, host: string, kept: multiset<string>)
    requires host in held
    ensures (held - multiset{host}) + (kept + multiset{host}) == held + kept
  {
  }

  lemma FewerTasks(tasks: seq<Task>, i: nat)
    requires i < |tasks|
    ensures forall task :: task in Without(tasks, i) ==> task in tasks
  {
  }

  /** A finished task leaves flight; its outcome is recorded. */
  function RecordBooks(books: Books, i: nat, success: bool): Books
    requires i < |books.tasks|
  {
    books.(tasks := Without(books.tasks, i), recorded := books.recorded + [books.tasks[i].request],
           successCount := books.successCount + if success then 1 else 0,
           failureCount := books.failureCount + if success then 0 else 1)
  }

  /** A finished task leaves flight without a recorded outcome. */
  function DropBooks(books: Books, i: nat): Books
    requires i < |books.tasks|
  {
    books.(tasks := Without(books.tasks, i), dropped := books.dropped + [books.tasks[i].request])
  }

  /** The counters say how many of the recorded requests succeeded. */
  ghost predicate Counted(succeeds: Request -> bool, books: Books) {
    && books.successCount == CountOf(succeeds, books.recorded)
    && books.failureCount == |books.recorded| - CountOf(succeeds, books.recorded)
  }

  lemma CountedRecord(succeeds: Request -> bool, books: Books, i: nat)
    requires Counted(succeeds, books) && i < |books.tasks|
    ensures Counted(succeeds, RecordBooks(books, i, succeeds(books.tasks[i].request)))
  {
    CountMore(succeeds, books.recorded, books.tasks[i].request);
  }

  lemma CountedNew(succeeds: Request -> bool)
    ensures Counted(succeeds, NEW_BOOKS)
  {
  }

  lemma BalancedRecord(books: Books, i: nat, success: bool)
    requires Balanced(books) && i < |books.tasks| && books.tasks[i].finished
    ensures Balanced(RecordBooks(books, i, success)) && Balanced(DropBooks(books, i))
  {
    hide Carried, Leased, HostsOf;
    TasksRemove(books.tasks, i);
    FewerTasks(books.tasks, i);
    CountAppend(books.recorded, books.tasks[i].request);
    CountAppend(books.dropped, books.tasks[i].request);
  }

  /** With no task running, exactly the leases and slots of the abandoned tasks are still held. */
  lemma HeldAtEnd(books: Books)
    requires Balanced(books) && forall task :: task in books.tasks ==> task.finished
    ensures books.leases == HostsOf(books.abandoned) && books.slots == |books.abandoned|
    ensures books.leases == multiset{} <==> books.abandoned == []
  {
    NothingLeased(books.tasks);
    HostsCount(books.abandoned);
  }

  lemma AllRecorded(books: Books)
    requires Balanced(books) && books.tasks == [] && books.dropped == []
    ensures multiset(books.recorded) == multiset(books.admitted)
    ensures books.successCount + books.failureCount == books.requestCount == |books.admitted|
    ensures books.abandoned == []
  {
    assert |multiset(books.recorded)| == |books.recorded|;
    assert |multiset(books.admitted)| == |books.admitted|;
    assert |multiset(books.abandoned)| == |books.abandoned|;
  }
}
