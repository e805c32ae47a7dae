/** Per-host backoff as a function of the observations made so far (`AntiBotHostGovernor`). */
module BackoffRuns {
  import opened Sequences

  datatype Kind = NoBlock | RateLimited | ServiceUnavailable | RequestRejected | OtherBlock

  datatype Penalty = Penalty(host: string, failures: nat, retryAt: real, lastKind: Kind)

  /** `requested` is the delay the server asked for, 0 if none; hosts are normalised and not empty. */
  datatype Observation = Observation(host: string, kind: Kind, requested: real, at: real)

  datatype Limits = Limits(hosts: nat, backoff: real)

  datatype Option<T> = None | Some(value: T)

  const MAX_FAILURES := 16

  function Min(a: real, b: real): real {
    if a <= b then a else b
  }

  function Max(a: real, b: real): real {
    if a >= b then a else b
  }

  function Power(n: nat): real {
    if n == 0 then 1.0 else 2.0 * Power(n - 1)
  }

  function MoreFailures(failures: nat): nat {
    if failures + 1 > MAX_FAILURES then MAX_FAILURES else failures + 1
  }

  /** What one observation makes of the host's penalty. */
  function Updated(penalty: Penalty, seen: Observation, backoff: real): Penalty {
    var marked := penalty.(lastKind := seen.kind);
    match seen.kind
    case NoBlock =>
      var failures := if penalty.failures > 0 then penalty.failures - 1 else 0;
      marked.(failures := failures, retryAt := if failures == 0 then 0.0 else penalty.retryAt)
    case RateLimited =>
      var failures := MoreFailures(penalty.failures);
      var delay := if seen.requested > 0.0 then seen.requested
                   else Min(backoff, 0.75 * Power(if failures > 0 then failures - 1 else 0));
      marked.(failures := failures, retryAt := Max(penalty.retryAt, seen.at + Min(backoff, delay)))
    case OtherBlock =>
      marked
    case _ =>
      var failures := MoreFailures(penalty.failures);
      var delay := Min(backoff, 0.5 * Power(if failures > 0 then failures - 1 else 0));
      marked.(failures := failures, retryAt := Max(penalty.retryAt, seen.at + delay))
  }

  /** How far off one observation puts the retry time of a host with so many failures before, if nothing is asked for. */
  function DelayAfter(kind: Kind, failures: nat, backoff: real): real {
    Updated(Penalty("", failures, 0.0, NoBlock), Observation("", kind, 0.0, 0.0), backoff).retryAt
  }

  /** The first delay is three quarters of a second, or half a second without a rate limit. */
  lemma FirstDelay(backoff: real)
    requires backoff >= 1.0
    ensures DelayAfter(RateLimited, 0, backoff) == 0.75
    ensures DelayAfter(ServiceUnavailable, 0, backoff) == DelayAfter(RequestRejected, 0, backoff) == 0.5
    ensures DelayAfter(OtherBlock, 0, backoff) == DelayAfter(NoBlock, 0, backoff) == 0.0
  {
    assert Power(0) == 1.0;
  }

  /** With every failure up to the sixteenth the delay doubles, within the longest backoff. */
  lemma NextDelay(kind: Kind, failures: nat, backoff: real)
    requires backoff >= 1.0 && kind in {RateLimited, ServiceUnavailable, RequestRejected}
    ensures DelayAfter(kind, failures + 1, backoff) ==
      if failures >= 15 then DelayAfter(kind, failures, backoff)
      else if 2.0 * DelayAfter(kind, failures, backoff) <= backoff then 2.0 * DelayAfter(kind, failures, backoff)
      else backoff
  {
    var before := if failures < 15 then failures else 15;
    PowerPositive(before);
    assert failures < 15 ==> Power(failures + 1) == 2.0 * Power(failures);
  }

  /**
   * What one observation does: a block counts as one more failure, up to 16, and only puts the retry time off; a
   * response without one forgets a failure, and with the last of them the retry time.
   */
  lemma ObservationEffect(penalty: Penalty, seen: Observation, backoff: real)
    requires penalty.failures <= 16 && backoff >= 1.0
    ensures var updated := Updated(penalty, seen, backoff);
      && updated.host == penalty.host && updated.lastKind == seen.kind
      && (seen.kind.NoBlock? && penalty.failures <= 1 ==> updated.failures == 0 && updated.retryAt == 0.0)
      && (seen.kind.NoBlock? && penalty.failures > 1 ==>
        updated.failures == penalty.failures - 1 && updated.retryAt == penalty.retryAt)
      && (seen.kind.OtherBlock? ==> updated.failures == penalty.failures && updated.retryAt == penalty.retryAt)
      && (seen.kind in {RateLimited, ServiceUnavailable, RequestRejected} ==>
        var delay := if seen.kind.RateLimited? && seen.requested > 0.0
          then Min(backoff, seen.requested) else DelayAfter(seen.kind, penalty.failures, backoff);
        && updated.failures == (if penalty.failures == 16 then 16 else penalty.failures + 1)
        && updated.retryAt == Max(penalty.retryAt, seen.at + delay))
  {
    PowerPositive(MoreFailures(penalty.failures) - 1);
  }

  function Hosts(table: seq<Penalty>): seq<string> {
    seq(|table|, i requires 0 <= i < |table| => table[i].host)
  }

  ghost predicate Known(table: seq<Penalty>, host: string) {
    exists i :: 0 <= i < |table| && table[i].host == host
  }

  /** `oldest` is the first of the hosts whose retry time is the earliest. */
  ghost predicate Earliest(table: seq<Penalty>, oldest: nat) {
    && oldest < |table|
    && (forall i :: 0 <= i < |table| ==> table[oldest].retryAt <= table[i].retryAt)
    && forall i :: 0 <= i < oldest ==> table[oldest].retryAt < table[i].retryAt
  }

  /** One step of `observe` on the table, hosts in the order they were added. */
  ghost predicate Step(before: seq<Penalty>, seen: Observation, limits: Limits, after: seq<Penalty>) {
    if Known(before, seen.host) then
      exists i :: 0 <= i < |before| && before[i].host == seen.host
        && after == before[i := Updated(before[i], seen, limits.backoff)]
    else if |before| < limits.hosts then
      after == before + [Updated(Penalty(seen.host, 0, 0.0, NoBlock), seen, limits.backoff)]
    else
      exists oldest :: Earliest(before, oldest)
        && after == Without(before, oldest) + [Updated(Penalty(seen.host, 0, 0.0, NoBlock), seen, limits.backoff)]
  }

  /**
   * The tables of a run: each one is the step from the one before.  Every observation reads the clock before it
   * takes the lock, so the readings need not come in order.
   */
  ghost predicate Run(tables: seq<seq<Penalty>>, seen: seq<Observation>, limits: Limits) {
    && |tables| == |seen| + 1 && tables[0] == []
    && (forall k :: 0 <= k < |seen| ==> seen[k].host != "" && Step(tables[k], seen[k], limits, tables[k + 1]))
    && forall k :: 0 <= k < |seen| ==> 0.0 <= seen[k].at
  }

  ghost predicate PenaltyValid(penalty: Penalty, limits: Limits, clock: real) {
    && penalty.failures <= MAX_FAILURES
    && 0.0 <= penalty.retryAt <= clock + limits.backoff
    && (penalty.failures == 0 ==> penalty.retryAt == 0.0)
  }

  ghost predicate TableValid(table: seq<Penalty>, limits: Limits, clock: real) {
    && |table| <= limits.hosts && Distinct(Hosts(table))
    && forall penalty :: penalty in table ==> PenaltyValid(penalty, limits, clock)
  }

  lemma {:induction false} PowerPositive(n: nat)
    ensures Power(n) >= 1.0
  {
    if n > 0 {
      PowerPositive(n - 1);
    }
  }

  /** An observation keeps a penalty in its bounds, and moves its retry time back only by full recovery. */
  lemma UpdatedValid(penalty: Penalty, seen: Observation, limits: Limits, clock: real)
    requires PenaltyValid(penalty, limits, clock) && 0.0 <= clock && 0.0 <= seen.at && limits.backoff >= 1.0
    ensures var updated := Updated(penalty, seen, limits.backoff);
      && PenaltyValid(updated, limits, Max(clock, seen.at)) && updated.host == penalty.host
      && (updated.retryAt >= penalty.retryAt || (seen.kind.NoBlock? && updated.failures == 0))
  {
    var failures := MoreFailures(penalty.failures);
    PowerPositive(failures - 1);
  }

  lemma NewHost(table: seq<Penalty>, penalty: Penalty)
    requires Distinct(Hosts(table)) && !Known(table, penalty.host)
    ensures Distinct(Hosts(table + [penalty]))
  {
    assert Hosts(table + [penalty]) == Hosts(table) + [penalty.host];
    forall i | 0 <= i < |table| ensures Hosts(table)[i] != penalty.host {
      assert table[i].host != penalty.host;
    }
  }

  lemma OneHostLess(table: seq<Penalty>, oldest: nat)
    requires oldest < |table| && Distinct(Hosts(table))
    ensures Distinct(Hosts(Without(table, oldest)))
    ensures forall penalty :: penalty in Without(table, oldest) ==> penalty in table
    ensures forall i :: 0 <= i < |table| && i != oldest ==> table[i] in Without(table, oldest)
  {
    var less := Without(table, oldest);
    forall i, j | 0 <= i < j < |less| ensures Hosts(less)[i] != Hosts(less)[j] {
      assert Hosts(table)[if i < oldest then i else i + 1] != Hosts(table)[if j < oldest then j else j + 1];
    }
    forall i | 0 <= i < |table| && i != oldest ensures table[i] in less {
      assert less[if i < oldest then i else i - 1] == table[i];
    }
  }

  lemma SameHosts(table: seq<Penalty>, i: nat, penalty: Penalty)
    requires i < |table| && penalty.host == table[i].host
    ensures Hosts(table[i := penalty]) == Hosts(table)
  {
  }

  lemma StepValid(before: seq<Penalty>, seen: Observation, limits: Limits, after: seq<Penalty>, clock: real)
    requires TableValid(before, limits, clock) && Step(before, seen, limits, after)
    requires 0.0 <= clock && 0.0 <= seen.at && limits.backoff >= 1.0 && limits.hosts > 0
    ensures TableValid(after, limits, Max(clock, seen.at))
  {
    hide Updated;
    var added := Updated(Penalty(seen.host, 0, 0.0, NoBlock), seen, limits.backoff);
    UpdatedValid(Penalty(seen.host, 0, 0.0, NoBlock), seen, limits, clock);
    if Known(before, seen.host) {
      var i :| 0 <= i < |before| && before[i].host == seen.host
        && after == before[i := Updated(before[i], seen, limits.backoff)];
      UpdatedValid(before[i], seen, limits, clock);
      var updated := Updated(before[i], seen, limits.backoff);
      SameHosts(before, i, updated);
      forall penalty | penalty in after ensures PenaltyValid(penalty, limits, Max(clock, seen.at)) {
        if penalty != updated {
          assert penalty in before && PenaltyValid(penalty, limits, clock);
        }
      }
    } else if |before| < limits.hosts {
      NewHost(before, added);
    } else {
      var oldest :| Earliest(before, oldest) && after == Without(before, oldest) + [added];
      OneHostLess(before, oldest);
      NewHost(Without(before, oldest), added);
    }
  }

  /** The latest of the clock readings. */
  ghost function ClockOf(seen: seq<Observation>): real {
    if seen == [] then 0.0 else Max(ClockOf(seen[..|seen| - 1]), seen[|seen| - 1].at)
  }

  lemma {:induction false} ClockNotNegative(seen: seq<Observation>)
    requires forall k :: 0 <= k < |seen| ==> 0.0 <= seen[k].at
    ensures 0.0 <= ClockOf(seen)
  {
    if seen != [] {
      ClockNotNegative(seen[..|seen| - 1]);
    }
  }

  /** In every run the table stays within its limit, failures within 0 to 16, and retry times within the backoff. */
  lemma {:induction false} RunValid(tables: seq<seq<Penalty>>, seen: seq<Observation>, limits: Limits)
    requires Run(tables, seen, limits) && limits.backoff >= 1.0 && limits.hosts > 0
    ensures TableValid(tables[|seen|], limits, ClockOf(seen))
  {
    if seen == [] {
      assert Hosts([]) == [];
    } else {
      var last := |seen| - 1;
      RunPrefix(tables, seen, limits);
      RunValid(tables[..last + 1], seen[..last], limits);
      StepValid(tables[last], seen[last], limits, tables[last + 1], ClockOf(seen[..last]));
    }
  }

  lemma RunPrefix(tables: seq<seq<Penalty>>, seen: seq<Observation>, limits: Limits)
    requires Run(tables, seen, limits) && seen != []
    ensures Run(tables[..|seen|], seen[..|seen| - 1], limits)
    ensures 0.0 <= ClockOf(seen[..|seen| - 1])
  {
    var fewer := seen[..|seen| - 1];
    ClockNotNegative(fewer);
    forall k | 0 <= k < |fewer| ensures Step(tables[..|seen|][k], fewer[k], limits, tables[..|seen|][k + 1]) {
      assert Step(tables[k], seen[k], limits, tables[k + 1]);
    }
  }

  // ----- Promised retry times -----

  function Wait(table: seq<Penalty>, host: string, now: real): real {
    if table == [] then 0.0
    else if table[0].host == host then Max(0.0, table[0].retryAt - now)
    else Wait(table[1..], host, now)
  }

  /** No reported wait is longer than the backoff limit. */
  lemma {:induction false} WaitBounded(table: seq<Penalty>, host: string, now: real, limits: Limits, clock: real)
    requires forall penalty :: penalty in table ==> PenaltyValid(penalty, limits, clock)
    requires clock <= now && limits.backoff >= 0.0
    ensures 0.0 <= Wait(table, host, now) <= limits.backoff
  {
    if table != [] {
      assert PenaltyValid(table[0], limits, clock);
      WaitBounded(table[1..], host, now, limits, clock);
    }
  }

  ghost function PenaltyOf(table: seq<Penalty>, host: string): Option<Penalty> {
    if table == [] then None
    else if table[0].host == host then Some(table[0])
    else PenaltyOf(table[1..], host)
  }

  /** The host's retry time, if the table has it. */
  ghost function RetryAt(table: seq<Penalty>, host: string): Option<real> {
    var penalty := PenaltyOf(table, host);
    if penalty.Some? then Some(penalty.value.retryAt) else None
  }

  lemma {:induction false} RetryOf(table: seq<Penalty>, i: nat)
    requires i < |table| && Distinct(Hosts(table))
    ensures PenaltyOf(table, table[i].host) == Some(table[i])
    ensures RetryAt(table, table[i].host) == Some(table[i].retryAt)
  {
    if i > 0 {
      assert Hosts(table)[0] != Hosts(table)[i];
      assert Hosts(table[1..]) == Hosts(table)[1..];
      RetryOf(table[1..], i - 1);
    }
  }

  lemma {:induction false} RetryKnown(table: seq<Penalty>, host: string)
    ensures RetryAt(table, host).Some? <==> Known(table, host)
  {
    if table != [] {
      RetryKnown(table[1..], host);
      if Known(table, host) && table[0].host != host {
        var i :| 0 <= i < |table| && table[i].host == host;
        assert table[1..][i - 1].host == host;
      }
    }
  }

  /** The host recovered: its last failure was forgotten. */
  ghost predicate Recovers(seen: Observation, host: string, after: seq<Penalty>) {
    && seen.host == host && seen.kind.NoBlock?
    && PenaltyOf(after, host).Some? && PenaltyOf(after, host).value.failures == 0
  }

  lemma KeptAt(table: seq<Penalty>, i: nat, penalty: Penalty)
    requires i < |table| && table[i] == penalty && Distinct(Hosts(table))
    ensures RetryAt(table, penalty.host) == Some(penalty.retryAt)
    ensures PenaltyOf(table, penalty.host) == Some(penalty)
  {
    RetryOf(table, i);
  }

  /** Replacing one host by a new one: the others keep their retry times, and the one is gone. */
  lemma ReplacedHost(before: seq<Penalty>, oldest: nat, added: Penalty, i: nat)
    requires oldest < |before| && i < |before| && Distinct(Hosts(before)) && !Known(before, added.host)
    requires Distinct(Hosts(Without(before, oldest) + [added]))
    ensures RetryAt(Without(before, oldest) + [added], before[i].host) ==
      if i == oldest then None else Some(before[i].retryAt)
  {
    var after := Without(before, oldest) + [added];
    if i < oldest {
      KeptAt(after, i, before[i]);
    } else if i > oldest {
      KeptAt(after, i - 1, before[i]);
    } else {
      RetryKnown(after, before[i].host);
      forall k | 0 <= k < |after| ensures after[k].host != before[i].host {
        if k < |before| - 1 {
          var at := if k < oldest then k else k + 1;
          assert after[k] == before[at] && Hosts(before)[at] != Hosts(before)[oldest];
        }
      }
    }
  }

  /**
   * One observation never moves a host's retry time earlier, unless the host recovers or is evicted; and a
   * host is evicted only from a full table, for a new host, and if no other host may retry earlier.
   */
  lemma StepKeepsPromise(before: seq<Penalty>, seen: Observation, limits: Limits, after: seq<Penalty>, clock: real, i: nat)
    requires TableValid(before, limits, clock) && Step(before, seen, limits, after) && i < |before|
    requires 0.0 <= clock && 0.0 <= seen.at && limits.backoff >= 1.0 && limits.hosts > 0
    ensures var retry := RetryAt(after, before[i].host);
      if retry.Some? then retry.value >= before[i].retryAt || Recovers(seen, before[i].host, after)
      else (
        && !Known(before, seen.host) && |before| == limits.hosts
        && forall j :: 0 <= j < |before| ==> before[i].retryAt <= before[j].retryAt)
  {
    StepValid(before, seen, limits, after, clock);
    hide Updated, RetryAt, PenaltyOf;
    if Known(before, seen.host) {
      var j :| 0 <= j < |before| && before[j].host == seen.host
        && after == before[j := Updated(before[j], seen, limits.backoff)];
      UpdatedValid(before[j], seen, limits, clock);
      KeptAt(after, i, after[i]);
    } else if |before| < limits.hosts {
      KeptAt(after, i, before[i]);
    } else {
      var added := Updated(Penalty(seen.host, 0, 0.0, NoBlock), seen, limits.backoff);
      var oldest :| Earliest(before, oldest) && after == Without(before, oldest) + [added];
      UpdatedValid(Penalty(seen.host, 0, 0.0, NoBlock), seen, limits, clock);
      ReplacedHost(before, oldest, added, i);
    }
  }

  /** After a rate limit the host's retry time is at least as far off as the server asked, within the limit. */
  lemma RequestHonoured(before: seq<Penalty>, seen: Observation, limits: Limits, after: seq<Penalty>, clock: real)
    requires TableValid(before, limits, clock) && Step(before, seen, limits, after)
    requires 0.0 <= clock && 0.0 <= seen.at && limits.backoff >= 1.0 && limits.hosts > 0
    requires seen.kind.RateLimited? && seen.requested > 0.0
    ensures var retry := RetryAt(after, seen.host);
      retry.Some? && retry.value >= seen.at + Min(limits.backoff, seen.requested)
  {
    StepValid(before, seen, limits, after, clock);
    hide RetryAt, PenaltyOf;
    if Known(before, seen.host) {
      var i :| 0 <= i < |before| && before[i].host == seen.host
        && after == before[i := Updated(before[i], seen, limits.backoff)];
      KeptAt(after, i, after[i]);
    } else {
      KeptAt(after, |after| - 1, after[|after| - 1]);
    }
  }

  /** `count` observations without a block, one after the other. */
  function Recovering(penalty: Penalty, count: nat, at: real, backoff: real): Penalty {
    if count == 0 then penalty
    else Updated(Recovering(penalty, count - 1, at, backoff), Observation(penalty.host, NoBlock, 0.0, at), backoff)
  }

  /** A host recovers after exactly as many unblocked responses as it has failures, and waits until then. */
  lemma {:induction false} RecoveryTakesAsMany(penalty: Penalty, count: nat, at: real, backoff: real)
    requires penalty.failures > 0
    ensures var recovered := Recovering(penalty, count, at, backoff);
      && recovered.failures == (if count < penalty.failures then penalty.failures - count else 0)
      && recovered.retryAt == if count < penalty.failures then penalty.retryAt else 0.0
  {
    if count > 0 {
      RecoveryTakesAsMany(penalty, count - 1, at, backoff);
    }
  }

  /** The host is in the table before and after step `k`, and does not recover in it. */
  ghost predicate Undisturbed(tables: seq<seq<Penalty>>, seen: seq<Observation>, host: string, k: nat)
    requires k < |seen| && |tables| == |seen| + 1
  {
    RetryAt(tables[k], host).Some? && RetryAt(tables[k + 1], host).Some? && !Recovers(seen[k], host, tables[k + 1])
  }

  /** Over any stretch of a run without recovery or eviction a promised retry time never moves earlier. */
  lemma {:induction false} PromiseKept(tables: seq<seq<Penalty>>, seen: seq<Observation>, limits: Limits,
                                          host: string, start: nat, end: nat)
    requires Run(tables, seen, limits) && limits.backoff >= 1.0 && limits.hosts > 0
    requires start <= end <= |seen| && RetryAt(tables[start], host).Some?
    requires forall k :: start <= k < end ==> Undisturbed(tables, seen, host, k)
    ensures RetryAt(tables[end], host).Some?
    ensures RetryAt(tables[end], host).value >= RetryAt(tables[start], host).value
    decreases end
  {
    if start < end {
      PromiseKept(tables, seen, limits, host, start, end - 1);
      assert Undisturbed(tables, seen, host, end - 1);
      TablesValid(tables, seen, limits, end - 1);
      hide Run;
      PromiseKeptOnce(tables[end - 1], seen[end - 1], limits, tables[end], ClockOf(seen[..end - 1]), host);
    }
  }

  lemma PromiseKeptOnce(before: seq<Penalty>, seen: Observation, limits: Limits, after: seq<Penalty>, clock: real, host: string)
    requires TableValid(before, limits, clock) && Step(before, seen, limits, after)
    requires 0.0 <= clock && 0.0 <= seen.at && limits.backoff >= 1.0 && limits.hosts > 0
    requires RetryAt(before, host).Some? && RetryAt(after, host).Some? && !Recovers(seen, host, after)
    ensures RetryAt(after, host).value >= RetryAt(before, host).value
  {
    RetryKnown(before, host);
    var i :| 0 <= i < |before| && before[i].host == host;
    RetryOf(before, i);
    StepKeepsPromise(before, seen, limits, after, clock, i);
  }

  lemma {:induction false} TablesValid(tables: seq<seq<Penalty>>, seen: seq<Observation>, limits: Limits, k: nat)
    requires Run(tables, seen, limits) && limits.backoff >= 1.0 && limits.hosts > 0 && k < |seen|
    ensures TableValid(tables[k], limits, ClockOf(seen[..k]))
    ensures Step(tables[k], seen[k], limits, tables[k + 1]) && 0.0 <= ClockOf(seen[..k])
    decreases |seen|
  {
    RunPrefix(tables, seen, limits);
    var last := |seen| - 1;
    if k == last {
      RunValid(tables[..last + 1], seen[..last], limits);
    } else {
      TablesValid(tables[..last + 1], seen[..last], limits, k);
      assert seen[..last][..k] == seen[..k];
    }
  }
}
