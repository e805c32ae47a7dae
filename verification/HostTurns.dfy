/** The order in which the loop over the deferred hosts gives them their turns. */
module HostTurns {
  import opened HostQueues
  import opened RunLedger
  import opened Sequences

  /** The answers `True`, `False` and `None` of `_admit_async_request`. */
  datatype Admission = Admitted | HostRefused | GateFull

  datatype Attempt = Attempt(host: string, answer: Admission)

  /** The first deferred host was tried: it advances, goes to the back, or stays in front of a full gate. */
  ghost function AfterTry(queues: Queues, answer: Admission): Queues {
    if queues.hosts == [] || queues.hosts[0] !in queues.buckets || queues.buckets[queues.hosts[0]] == [] then queues
    else
      match answer
      case Admitted => AdvanceHost(queues)
      case HostRefused => queues.(hosts := Rotate(queues.hosts))
      case GateFull => queues
  }

  ghost function AfterTries(queues: Queues, tries: seq<Attempt>): Queues {
    if tries == [] then queues
    else AfterTry(AfterTries(queues, tries[..|tries| - 1]), tries[|tries| - 1].answer)
  }

  /** The request that is tried for the first deferred host, if there is one. */
  ghost function FirstRequest(queues: Queues): seq<Request> {
    if queues.hosts == [] || queues.hosts[0] !in queues.buckets || queues.buckets[queues.hosts[0]] == [] then []
    else [queues.buckets[queues.hosts[0]][0]]
  }

  ghost function AdmittedTurns(queues: Queues, tries: seq<Attempt>): seq<Request> {
    if tries == [] then []
    else
      var last := |tries| - 1;
      AdmittedTurns(queues, tries[..last])
      + if tries[last].answer == Admitted then FirstRequest(AfterTries(queues, tries[..last])) else []
  }

  lemma OneMoreAdmitted(queues: Queues, tries: seq<Attempt>, attempt: Attempt)
    ensures AdmittedTurns(queues, tries + [attempt]) == AdmittedTurns(queues, tries)
      + if attempt.answer == Admitted then FirstRequest(AfterTries(queues, tries)) else []
  {
    assert (tries + [attempt])[..|tries|] == tries;
  }

  ghost predicate NoneFull(tries: seq<Attempt>) {
    forall k :: 0 <= k < |tries| ==> tries[k].answer != GateFull
  }

  ghost predicate FirstsTurn(queues: Queues, attempt: Attempt) {
    queues.hosts != [] && attempt.host == queues.hosts[0]
  }

  /** Each time the first host of the queue was tried, and only the last try met a full gate. */
  ghost predicate InTurn(queues: Queues, tries: seq<Attempt>) {
    && (forall k :: 0 <= k < |tries| ==> FirstsTurn(AfterTries(queues, tries[..k]), tries[k]))
    && (tries != [] ==> NoneFull(tries[..|tries| - 1]))
  }

  lemma OneMoreTry(queues: Queues, tries: seq<Attempt>, attempt: Attempt)
    requires InTurn(queues, tries) && NoneFull(tries) && FirstsTurn(AfterTries(queues, tries), attempt)
    ensures InTurn(queues, tries + [attempt])
    ensures AfterTries(queues, tries + [attempt]) == AfterTry(AfterTries(queues, tries), attempt.answer)
    ensures attempt.answer != GateFull ==> NoneFull(tries + [attempt])
  {
    var more := tries + [attempt];
    assert more[..|tries|] == tries;
    forall k | 0 <= k < |more| ensures FirstsTurn(AfterTries(queues, more[..k]), more[k]) {
      assert more[..k] == tries[..k];
      assert k == |tries| ==> tries[..k] == tries;
    }
  }

  /** Since `before` the hosts had their turns, and the queues are what the answers made of them. */
  ghost predicate TurnsTaken(start: Queues, before: seq<Attempt>, now: Queues, attempts: seq<Attempt>) {
    && before <= attempts
    && InTurn(start, Since(before, attempts)) && now == AfterTries(start, Since(before, attempts))
  }

  /** The same, and none of them met a full gate. */
  ghost predicate Rotating(start: Queues, before: seq<Attempt>, now: Queues, attempts: seq<Attempt>) {
    TurnsTaken(start, before, now, attempts) && NoneFull(Since(before, attempts))
  }

  /** Since `before` exactly the first deferred requests that were granted were admitted, in this order. */
  ghost predicate AdmittedSince(start: Queues, before: seq<Attempt>, attempts: seq<Attempt>,
                                earlier: seq<Request>, admitted: seq<Request>)
  {
    before <= attempts && admitted == earlier + AdmittedTurns(start, Since(before, attempts))
  }

  lemma NothingAdmitted(start: Queues, attempts: seq<Attempt>, earlier: seq<Request>)
    ensures AdmittedSince(start, attempts, attempts, earlier, earlier)
  {
    assert Since(attempts, attempts) == [];
  }

  lemma AdmittedTurn(start: Queues, before: seq<Attempt>, now: Queues, attempts: seq<Attempt>,
                     earlier: seq<Request>, admitted: seq<Request>, answer: Admission)
    requires AdmittedSince(start, before, attempts, earlier, admitted) && Rotating(start, before, now, attempts) && now.hosts != []
    ensures AdmittedSince(start, before, attempts + [Attempt(now.hosts[0], answer)], earlier,
                          admitted + if answer == Admitted then FirstRequest(now) else [])
  {
    hide InTurn, NoneFull, AfterTries, Since, AdmittedTurns, FirstRequest;
    SinceAppend(before, attempts, Attempt(now.hosts[0], answer));
    OneMoreAdmitted(start, Since(before, attempts), Attempt(now.hosts[0], answer));
  }

  lemma NothingTried(queues: Queues, attempts: seq<Attempt>)
    ensures TurnsTaken(queues, attempts, queues, attempts) && Rotating(queues, attempts, queues, attempts)
    ensures AdmittedTurns(queues, Since(attempts, attempts)) == []
  {
    assert Since(attempts, attempts) == [];
  }

  lemma OneMoreTurn(start: Queues, before: seq<Attempt>, now: Queues, attempts: seq<Attempt>, answer: Admission)
    requires Rotating(start, before, now, attempts) && now.hosts != []
    ensures var attempt := Attempt(now.hosts[0], answer);
      && TurnsTaken(start, before, AfterTry(now, answer), attempts + [attempt])
      && (answer != GateFull ==> Rotating(start, before, AfterTry(now, answer), attempts + [attempt]))
  {
    hide InTurn, NoneFull, AfterTries, AfterTry, Since;
    var attempt := Attempt(now.hosts[0], answer);
    OneMoreTry(start, Since(before, attempts), attempt);
    SinceAppend(before, attempts, attempt);
  }

  /** Turns were taken, and what was granted was admitted. */
  ghost predicate Turned(start: Queues, before: seq<Attempt>, earlier: seq<Request>,
                         now: Queues, attempts: seq<Attempt>, admitted: seq<Request>)
  {
    TurnsTaken(start, before, now, attempts) && AdmittedSince(start, before, attempts, earlier, admitted)
  }

  /** The same, and none of them met a full gate. */
  ghost predicate Turning(start: Queues, before: seq<Attempt>, earlier: seq<Request>,
                          now: Queues, attempts: seq<Attempt>, admitted: seq<Request>)
  {
    Rotating(start, before, now, attempts) && AdmittedSince(start, before, attempts, earlier, admitted)
  }

  lemma NotTurned(queues: Queues, attempts: seq<Attempt>, admitted: seq<Request>)
    ensures Turned(queues, attempts, admitted, queues, attempts, admitted)
    ensures Turning(queues, attempts, admitted, queues, attempts, admitted)
  {
    NothingTried(queues, attempts);
    NothingAdmitted(queues, attempts, admitted);
  }

  lemma TurnedMore(start: Queues, before: seq<Attempt>, earlier: seq<Request>,
                   now: Queues, attempts: seq<Attempt>, admitted: seq<Request>, answer: Admission)
    requires Turning(start, before, earlier, now, attempts, admitted) && now.hosts != []
    ensures var next, tried := AfterTry(now, answer), attempts + [Attempt(now.hosts[0], answer)];
      var since := admitted + if answer == Admitted then FirstRequest(now) else [];
      && Turned(start, before, earlier, next, tried, since)
      && (answer != GateFull ==> Turning(start, before, earlier, next, tried, since))
  {
    hide TurnsTaken, AdmittedSince, AfterTry, FirstRequest;
    OneMoreTurn(start, before, now, attempts, answer);
    AdmittedTurn(start, before, now, attempts, earlier, admitted, answer);
  }

  lemma TurnedFacts(start: Queues, before: seq<Attempt>, earlier: seq<Request>,
                    now: Queues, attempts: seq<Attempt>, admitted: seq<Request>)
    requires Turned(start, before, earlier, now, attempts, admitted)
    ensures TurnsTaken(start, before, now, attempts) && before <= attempts
    ensures admitted == earlier + AdmittedTurns(start, Since(before, attempts))
    ensures |Since(before, attempts)| == |attempts| - |before|
  {
  }

  lemma {:induction false} TriesQueued(queues: Queues, tries: seq<Attempt>)
    requires Queued(queues.hosts, queues.buckets)
    ensures var after := AfterTries(queues, tries); Queued(after.hosts, after.buckets)
  {
    hide Queued;
    if tries != [] {
      TriesQueued(queues, tries[..|tries| - 1]);
      TryQueued(AfterTries(queues, tries[..|tries| - 1]), tries[|tries| - 1].answer);
    }
  }

  lemma TryQueued(queues: Queues, answer: Admission)
    requires Queued(queues.hosts, queues.buckets)
    ensures var after := AfterTry(queues, answer); Queued(after.hosts, after.buckets)
  {
    hide Queued;
    if queues.hosts != [] {
      var host := queues.hosts[0];
      RotateHost(queues.hosts, queues.buckets);
      DropHost(queues.hosts, queues.buckets);
      QueuedBucket(queues.hosts, queues.buckets);
      if queues.buckets[host][1..] != [] {
        AddHost(Rotate(queues.hosts), queues.buckets, host, queues.buckets[host][1..]);
      }
    }
  }

  /** Unless the gate is full, the hosts behind the first one move up by one place. */
  lemma OthersMoveUp(queues: Queues, answer: Admission)
    requires Queued(queues.hosts, queues.buckets) && queues.hosts != [] && answer != GateFull
    ensures queues.hosts[1..] <= AfterTry(queues, answer).hosts
  {
    QueuedBucket(queues.hosts, queues.buckets);
  }

  lemma NotFullYet(queues: Queues, tries: seq<Attempt>, k: nat)
    requires InTurn(queues, tries) && k < |tries|
    ensures AfterTries(queues, tries[..k]).hosts != [] && tries[k].host == AfterTries(queues, tries[..k]).hosts[0]
    ensures k < |tries| - 1 ==> tries[k].answer != GateFull
  {
    assert FirstsTurn(AfterTries(queues, tries[..k]), tries[k]);
    assert k < |tries| - 1 ==> tries[..|tries| - 1][k] == tries[k];
  }

  lemma TriesStep(queues: Queues, tries: seq<Attempt>, k: nat)
    requires k < |tries|
    ensures AfterTries(queues, tries[..k + 1]) == AfterTry(AfterTries(queues, tries[..k]), tries[k].answer)
  {
    assert tries[..k + 1][..k] == tries[..k];
  }

  lemma PrefixStep(hosts: seq<string>, p: nat, before: seq<string>, after: seq<string>)
    requires 0 < p <= |hosts| && hosts[p - 1..] <= before && before != [] && before[1..] <= after
    ensures hosts[p..] <= after
  {
    assert hosts[p..] == hosts[p - 1..][1..];
  }

  lemma {:induction false} MoveUp(queues: Queues, tries: seq<Attempt>, i: nat, p: nat)
    requires Queued(queues.hosts, queues.buckets) && InTurn(queues, tries)
    requires i + p < |tries| && p <= |AfterTries(queues, tries[..i]).hosts|
    ensures AfterTries(queues, tries[..i]).hosts[p..] <= AfterTries(queues, tries[..i + p]).hosts
  {
    hide InTurn, Queued, AfterTries, AfterTry, NoneFull;
    if p > 0 {
      var last := i + p - 1;
      var before := AfterTries(queues, tries[..last]);
      MoveUp(queues, tries, i, p - 1);
      TriesQueued(queues, tries[..last]);
      NotFullYet(queues, tries, last);
      TriesStep(queues, tries, last);
      OthersMoveUp(before, tries[last].answer);
      PrefixStep(AfterTries(queues, tries[..i]).hosts, p, before.hosts, AfterTries(queues, tries[..i + p]).hosts);
    }
  }

  /** From any try on, the hosts have their turns in the order in which they are queued then. */
  lemma TurnsAsQueued(queues: Queues, tries: seq<Attempt>, i: nat, p: nat)
    requires Queued(queues.hosts, queues.buckets) && InTurn(queues, tries)
    requires i + p < |tries| && p < |AfterTries(queues, tries[..i]).hosts|
    ensures tries[i + p].host == AfterTries(queues, tries[..i]).hosts[p]
  {
    hide InTurn, Queued, AfterTries;
    MoveUp(queues, tries, i, p);
    NotFullYet(queues, tries, i + p);
    assert AfterTries(queues, tries[..i]).hosts[p..][0] == AfterTries(queues, tries[..i]).hosts[p];
  }

  /** A host is not tried again before all that were queued with it. */
  lemma NotSooner(queues: Queues, tries: seq<Attempt>, i: nat, p: nat)
    requires Queued(queues.hosts, queues.buckets) && InTurn(queues, tries)
    requires 0 < p && i + p < |tries| && tries[i].host == tries[i + p].host
    ensures p >= |AfterTries(queues, tries[..i]).hosts|
  {
    hide InTurn, Queued, AfterTries;
    TriesQueued(queues, tries[..i]);
    DistinctHosts(AfterTries(queues, tries[..i]));
    NotFullYet(queues, tries, i);
    if p < |AfterTries(queues, tries[..i]).hosts| {
      TurnsAsQueued(queues, tries, i, p);
    }
  }

  lemma DistinctHosts(queues: Queues)
    requires Queued(queues.hosts, queues.buckets)
    ensures forall p :: 0 < p < |queues.hosts| ==> queues.hosts[p] != queues.hosts[0]
  {
  }

  /** Between two tries of one host every other host that is deferred then has its turn. */
  lemma RoundRobin(queues: Queues, tries: seq<Attempt>, i: nat, j: nat, host: string)
    requires Queued(queues.hosts, queues.buckets) && InTurn(queues, tries)
    requires i < j < |tries| && tries[i].host == tries[j].host
    requires host in AfterTries(queues, tries[..i]).hosts
    ensures exists k :: i <= k < j && tries[k].host == host
  {
    hide InTurn, Queued, AfterTries;
    var hosts := AfterTries(queues, tries[..i]).hosts;
    NotSooner(queues, tries, i, j - i);
    var p :| 0 <= p < |hosts| && hosts[p] == host;
    TurnsAsQueued(queues, tries, i, p);
  }
}
