/** The scan of the pending queue, entry by entry. */
module PendingScan {
  import opened HostQueues
  import opened HostTurns
  import opened RunLedger
  import opened Sequences

  /** What happens to the first pending entry: it joins the bucket its host has, or its admission is tried. */
  datatype EntryStep = WaitsBehind | Tried(answer: Admission)

  ghost function AfterEntry(queues: Queues, step: EntryStep): Queues {
    if queues.pending == [] then queues
    else
      match step
      case WaitsBehind => DeferFirst(queues)
      case Tried(Admitted) => queues.(pending := queues.pending[1..])
      case Tried(HostRefused) => DeferFirst(queues)
      case Tried(GateFull) => queues
  }

  ghost function AfterScan(queues: Queues, steps: seq<EntryStep>): Queues {
    if steps == [] then queues
    else AfterEntry(AfterScan(queues, steps[..|steps| - 1]), steps[|steps| - 1])
  }

  /** An entry waits exactly if its host has a bucket, and is tried otherwise. */
  ghost predicate Fits(queues: Queues, step: EntryStep) {
    queues.pending != [] && (step.WaitsBehind? <==> queues.pending[0].host in queues.buckets)
  }

  ghost predicate NoneGated(steps: seq<EntryStep>) {
    forall k :: 0 <= k < |steps| ==> steps[k] != Tried(GateFull)
  }

  /** A scan: one entry after the other, up to the first full gate. */
  ghost predicate InScan(queues: Queues, steps: seq<EntryStep>) {
    && (forall k :: 0 <= k < |steps| ==> Fits(AfterScan(queues, steps[..k]), steps[k]))
    && (steps != [] ==> NoneGated(steps[..|steps| - 1]))
  }

  /** The admissions that were tried for these entries. */
  ghost function TriesFor(pending: seq<Request>, steps: seq<EntryStep>): seq<Attempt> {
    if steps == [] || |steps| > |pending| then []
    else
      var last := |steps| - 1;
      TriesFor(pending, steps[..last])
      + if steps[last].Tried? then [Attempt(pending[last].host, steps[last].answer)] else []
  }

  ghost function AdmittedOf(pending: seq<Request>, steps: seq<EntryStep>): seq<Request> {
    if steps == [] || |steps| > |pending| then []
    else
      var last := |steps| - 1;
      AdmittedOf(pending, steps[..last]) + if steps[last] == Tried(Admitted) then [pending[last]] else []
  }

  lemma NothingScanned(queues: Queues)
    ensures InScan(queues, []) && NoneGated([]) && AfterScan(queues, []) == queues
    ensures TriesFor(queues.pending, []) == [] && AdmittedOf(queues.pending, []) == []
  {
  }

  lemma EntryLeaves(queues: Queues, step: EntryStep)
    requires Fits(queues, step) && step != Tried(GateFull)
    ensures queues.pending != [] && AfterEntry(queues, step).pending == queues.pending[1..]
  {
  }

  /** Until a full gate, each step settles the next entry of the queue as it was. */
  lemma {:induction false} EntriesLeave(queues: Queues, steps: seq<EntryStep>)
    requires InScan(queues, steps) && NoneGated(steps)
    ensures |steps| <= |queues.pending| && AfterScan(queues, steps).pending == queues.pending[|steps|..]
  {
    if steps != [] {
      var last := |steps| - 1;
      ScanBefore(queues, steps, last);
      hide InScan, AfterEntry, Fits;
      EntriesLeave(queues, steps[..last]);
      EntryLeaves(AfterScan(queues, steps[..last]), steps[last]);
      assert queues.pending[last..][1..] == queues.pending[last + 1..];
    }
  }

  lemma ScanBefore(queues: Queues, steps: seq<EntryStep>, n: nat)
    requires InScan(queues, steps) && n < |steps|
    ensures InScan(queues, steps[..n]) && NoneGated(steps[..n])
    ensures Fits(AfterScan(queues, steps[..n]), steps[n])
  {
    assert forall k :: 0 <= k < n ==> steps[..n][..k] == steps[..k];
    assert forall k :: 0 <= k < n ==> steps[..|steps| - 1][k] == steps[k];
  }

  lemma OneMoreEntry(queues: Queues, steps: seq<EntryStep>, step: EntryStep)
    requires InScan(queues, steps) && NoneGated(steps) && Fits(AfterScan(queues, steps), step)
    ensures InScan(queues, steps + [step]) && (step != Tried(GateFull) ==> NoneGated(steps + [step]))
    ensures AfterScan(queues, steps + [step]) == AfterEntry(AfterScan(queues, steps), step)
    ensures |steps| < |queues.pending| && AfterScan(queues, steps).pending[0] == queues.pending[|steps|]
    ensures TriesFor(queues.pending, steps + [step]) == TriesFor(queues.pending, steps)
      + if step.Tried? then [Attempt(queues.pending[|steps|].host, step.answer)] else []
    ensures AdmittedOf(queues.pending, steps + [step]) == AdmittedOf(queues.pending, steps)
      + if step == Tried(Admitted) then [queues.pending[|steps|]] else []
  {
    EntriesLeave(queues, steps);
    var more := steps + [step];
    assert more[..|steps|] == steps;
    forall k | 0 <= k < |more| ensures Fits(AfterScan(queues, more[..k]), more[k]) {
      assert more[..k] == steps[..k];
      assert k == |steps| ==> steps[..k] == steps;
    }
  }

  lemma EntryBuckets(queues: Queues, step: EntryStep, host: string)
    requires Fits(queues, step)
    ensures host in AfterEntry(queues, step).buckets <==> (
      host in queues.buckets || (step == Tried(HostRefused) && queues.pending[0].host == host))
  {
  }

  /** An entry of the host was refused among these steps. */
  ghost predicate RefusedIn(pending: seq<Request>, steps: seq<EntryStep>, host: string)
    requires |steps| <= |pending|
  {
    exists k :: 0 <= k < |steps| && steps[k] == Tried(HostRefused) && pending[k].host == host
  }

  lemma RefusedMore(pending: seq<Request>, steps: seq<EntryStep>, host: string)
    requires 0 < |steps| <= |pending|
    ensures var last := |steps| - 1;
      RefusedIn(pending, steps, host) <==> (
        RefusedIn(pending, steps[..last], host) || (steps[last] == Tried(HostRefused) && pending[last].host == host))
  {
    assert forall k :: 0 <= k < |steps| - 1 ==> steps[..|steps| - 1][k] == steps[k];
  }

  /** Which hosts have a bucket during a scan: those that had one, and those that were refused in it. */
  lemma {:induction false} BucketsGrow(queues: Queues, steps: seq<EntryStep>, host: string)
    requires InScan(queues, steps) && NoneGated(steps) && |steps| <= |queues.pending|
    ensures host in AfterScan(queues, steps).buckets <==> (host in queues.buckets || RefusedIn(queues.pending, steps, host))
  {
    if steps != [] {
      var last := |steps| - 1;
      ScanBefore(queues, steps, last);
      EntriesLeave(queues, steps[..last]);
      BucketsGrow(queues, steps[..last], host);
      hide InScan, NoneGated, Fits, AfterEntry, RefusedIn;
      EntryBuckets(AfterScan(queues, steps[..last]), steps[last], host);
      RefusedMore(queues.pending, steps, host);
      assert AfterScan(queues, steps[..last]).pending[0] == queues.pending[last];
    }
  }

  /**
   * In a scan an entry waits untried exactly if its host had a bucket or an earlier entry of its host was refused
   * in the same scan; every other entry is tried.
   */
  lemma TriedUnlessBehind(queues: Queues, steps: seq<EntryStep>, k: nat)
    requires InScan(queues, steps) && k < |steps|
    ensures |steps| <= |queues.pending|
    ensures steps[k].WaitsBehind? <==> (
      queues.pending[k].host in queues.buckets || RefusedIn(queues.pending, steps[..k], queues.pending[k].host))
  {
    ScanBefore(queues, steps, |steps| - 1);
    EntriesLeave(queues, steps[..|steps| - 1]);
    ScanBefore(queues, steps, k);
    EntriesLeave(queues, steps[..k]);
    BucketsGrow(queues, steps[..k], queues.pending[k].host);
  }

  /** Every deferred host was already deferred, or was refused in this scan. */
  lemma {:induction false} NewHostsRefused(queues: Queues, steps: seq<EntryStep>, host: string)
    requires InScan(queues, steps) && host in AfterScan(queues, steps).hosts && host !in queues.hosts
    ensures Attempt(host, HostRefused) in TriesFor(queues.pending, steps)
  {
    var last := |steps| - 1;
    ScanBefore(queues, steps, last);
    EntriesLeave(queues, steps[..last]);
    if host in AfterScan(queues, steps[..last]).hosts {
      NewHostsRefused(queues, steps[..last], host);
      ShorterTries(queues.pending, steps);
    }
  }

  lemma ShorterTries(pending: seq<Request>, steps: seq<EntryStep>)
    requires steps != [] && |steps| <= |pending|
    ensures forall attempt :: attempt in TriesFor(pending, steps[..|steps| - 1]) ==> attempt in TriesFor(pending, steps)
  {
  }

  /** Since `before` these steps were taken from `start` on, with exactly the attempts they need. */
  ghost predicate ScanTaken(start: Queues, before: seq<Attempt>, now: Queues, attempts: seq<Attempt>, steps: seq<EntryStep>) {
    && before <= attempts && InScan(start, steps)
    && now == AfterScan(start, steps) && Since(before, attempts) == TriesFor(start.pending, steps)
  }

  /** The same, and none of them met a full gate. */
  ghost predicate Scanning(start: Queues, before: seq<Attempt>, now: Queues, attempts: seq<Attempt>, steps: seq<EntryStep>) {
    ScanTaken(start, before, now, attempts, steps) && NoneGated(steps)
  }

  lemma NoStep(queues: Queues, attempts: seq<Attempt>)
    ensures ScanTaken(queues, attempts, queues, attempts, []) && Scanning(queues, attempts, queues, attempts, [])
    ensures AdmittedOf(queues.pending, []) == []
  {
    assert Since(attempts, attempts) == [];
    NothingScanned(queues);
  }

  function TriesOf(host: string, step: EntryStep): seq<Attempt> {
    if step.Tried? then [Attempt(host, step.answer)] else []
  }

  lemma OneMoreStep(start: Queues, before: seq<Attempt>, now: Queues, attempts: seq<Attempt>, steps: seq<EntryStep>, step: EntryStep)
    requires Scanning(start, before, now, attempts, steps) && Fits(now, step)
    ensures now.pending != []
    ensures var tried := attempts + TriesOf(now.pending[0].host, step);
      && ScanTaken(start, before, AfterEntry(now, step), tried, steps + [step])
      && (step != Tried(GateFull) ==> Scanning(start, before, AfterEntry(now, step), tried, steps + [step]))
    ensures AdmittedOf(start.pending, steps + [step]) == AdmittedOf(start.pending, steps)
      + if step == Tried(Admitted) then [now.pending[0]] else []
  {
    hide InScan, NoneGated, AfterScan, AfterEntry, Since, TriesFor, AdmittedOf;
    OneMoreEntry(start, steps, step);
    if step.Tried? {
      SinceAppend(before, attempts, Attempt(now.pending[0].host, step.answer));
    } else {
      assert attempts + [] == attempts;
      assert TriesFor(start.pending, steps) + [] == TriesFor(start.pending, steps);
    }
  }

  /** Without a full gate the scan gets through as many entries as it has steps. */
  lemma ScannedAll(start: Queues, before: seq<Attempt>, now: Queues, attempts: seq<Attempt>, steps: seq<EntryStep>)
    requires Scanning(start, before, now, attempts, steps)
    ensures |steps| <= |start.pending| && now.pending == start.pending[|steps|..]
  {
    EntriesLeave(start, steps);
  }
}
