/** `AntiBotHostGovernor`: the table is kept in place, every call reads the clock once. */
module Governor {
  import opened BackoffRuns
  import opened Sequences

  class HostGovernor {
    const limits: Limits
    var table: seq<Penalty>
    ghost var tables: seq<seq<Penalty>>
    ghost var seen: seq<Observation>

    /** The table is what the run of observations so far leaves. */
    ghost predicate Valid()
      reads this
    {
      && 16 <= limits.hosts <= 100_000 && 1.0 <= limits.backoff <= 3600.0
      && Run(tables, seen, limits) && table == tables[|seen|]
    }

    constructor (maxHosts: int, maxBackoff: real)
      ensures Valid() && seen == []
      ensures limits.hosts == if maxHosts < 16 then 16 else if maxHosts > 100_000 then 100_000 else maxHosts
      ensures limits.backoff == if maxBackoff < 1.0 then 1.0 else if maxBackoff > 3600.0 then 3600.0 else maxBackoff
    {
      var hosts := if maxHosts < 16 then 16 else if maxHosts > 100_000 then 100_000 else maxHosts;
      limits := Limits(hosts, Max(1.0, Min(maxBackoff, 3600.0)));
      table, tables, seen := [], [[]], [];
    }

    method Find(host: string) returns (index: int)
      ensures -1 <= index < |table|
      ensures index >= 0 ==> table[index].host == host
      ensures index < 0 <==> !Known(table, host)
    {
      for i := 0 to |table|
        invariant forall j :: 0 <= j < i ==> table[j].host != host
      {
        if table[i].host == host {
          return i;
        }
      }
      return -1;
    }

    /** `min` over the hosts by retry time: the first of the earliest. */
    method Oldest() returns (oldest: nat)
      requires table != []
      ensures Earliest(table, oldest)
    {
      oldest := 0;
      for i := 1 to |table|
        invariant 0 <= oldest < i
        invariant forall j :: 0 <= j < i ==> table[oldest].retryAt <= table[j].retryAt
        invariant forall j :: 0 <= j < oldest ==> table[oldest].retryAt < table[j].retryAt
      {
        if table[i].retryAt < table[oldest].retryAt {
          oldest := i;
        }
      }
    }

    /** `observe`; a host without a name is ignored. */
    method Observe(host: string, kind: Kind, requested: real, now: real)
      requires Valid() && 0.0 <= now
      modifies this
      ensures Valid()
      ensures host == "" ==> table == old(table) && seen == old(seen)
      ensures host != "" ==>
        && seen == old(seen) + [Observation(host, kind, requested, now)]
        && Step(old(table), seen[|seen| - 1], limits, table)
    {
      if host == "" {
        return;
      }
      ghost var observation := Observation(host, kind, requested, now);
      hide Updated, Step;
      var index := Find(host);
      if index < 0 && |table| >= limits.hosts {
        WithinLimits();
        var oldest := Oldest();
        table := Without(table, oldest);
        StepEvicts(old(table), observation, limits, oldest);
      }
      if index < 0 {
        table := table + [Updated(Penalty(host, 0, 0.0, NoBlock), Observation(host, kind, requested, now), limits.backoff)];
        if |old(table)| < limits.hosts {
          StepAdds(old(table), observation, limits);
        }
      } else {
        table := table[index := Updated(table[index], Observation(host, kind, requested, now), limits.backoff)];
        StepUpdates(old(table), observation, limits, index);
      }
      RunMore(tables, seen, limits, observation, table);
      tables, seen := tables + [table], seen + [observation];
    }

    /** `wait_seconds`: never negative, and never longer than the longest backoff. */
    method WaitSeconds(host: string, now: real) returns (wait: real)
      requires Valid() && ClockOf(seen) <= now
      ensures wait == Wait(table, host, now) && 0.0 <= wait <= limits.backoff
      ensures var retry := RetryAt(table, host);
        wait == if retry.Some? && retry.value > now then retry.value - now else 0.0
    {
      RunValid(tables, seen, limits);
      WaitIsUntilRetry(table, host, now);
      WaitBounded(table, host, now, limits, ClockOf(seen));
      var index := Find(host);
      if index < 0 {
        WaitOf(table, host, now);
        return 0.0;
      }
      FirstIs(index);
      WaitAt(table, index, now);
      return Max(0.0, table[index].retryAt - now);
    }

    lemma WithinLimits()
      requires Valid()
      ensures |table| <= limits.hosts && Distinct(Hosts(table))
    {
      RunValid(tables, seen, limits);
    }

    lemma FirstIs(index: nat)
      requires Valid() && index < |table|
      ensures forall j :: 0 <= j < index ==> table[j].host != table[index].host
    {
      WithinLimits();
      forall j | 0 <= j < index ensures table[j].host != table[index].host {
        assert Hosts(table)[j] != Hosts(table)[index];
      }
    }
  }

  lemma {:induction false} WaitIsUntilRetry(table: seq<Penalty>, host: string, now: real)
    ensures var retry := RetryAt(table, host);
      Wait(table, host, now) == if retry.Some? && retry.value > now then retry.value - now else 0.0
  {
    if table != [] {
      WaitIsUntilRetry(table[1..], host, now);
    }
  }

  lemma StepUpdates(before: seq<Penalty>, seen: Observation, limits: Limits, i: nat)
    requires i < |before| && before[i].host == seen.host
    ensures Step(before, seen, limits, before[i := Updated(before[i], seen, limits.backoff)])
  {
    hide Updated;
  }

  lemma StepAdds(before: seq<Penalty>, seen: Observation, limits: Limits)
    requires !Known(before, seen.host) && |before| < limits.hosts
    ensures Step(before, seen, limits, before + [Updated(Penalty(seen.host, 0, 0.0, NoBlock), seen, limits.backoff)])
  {
    hide Updated;
  }

  lemma StepEvicts(before: seq<Penalty>, seen: Observation, limits: Limits, oldest: nat)
    requires !Known(before, seen.host) && |before| >= limits.hosts && Earliest(before, oldest)
    ensures Step(before, seen, limits,
      Without(before, oldest) + [Updated(Penalty(seen.host, 0, 0.0, NoBlock), seen, limits.backoff)])
  {
    hide Updated;
  }

  lemma RunMore(tables: seq<seq<Penalty>>, seen: seq<Observation>, limits: Limits, next: Observation, after: seq<Penalty>)
    requires Run(tables, seen, limits) && Step(tables[|seen|], next, limits, after)
    requires next.host != "" && 0.0 <= next.at
    ensures Run(tables + [after], seen + [next], limits)
  {
    hide Step;
  }

  lemma {:induction false} WaitOf(table: seq<Penalty>, host: string, now: real)
    requires !Known(table, host)
    ensures Wait(table, host, now) == 0.0
  {
    if table != [] {
      assert table[0].host != host;
      forall i | 0 <= i < |table[1..]| ensures table[1..][i].host != host {
        assert table[i + 1].host != host;
      }
      WaitOf(table[1..], host, now);
    }
  }

  lemma {:induction false} WaitAt(table: seq<Penalty>, i: nat, now: real)
    requires i < |table| && forall j :: 0 <= j < i ==> table[j].host != table[i].host
    ensures Wait(table, table[i].host, now) == Max(0.0, table[i].retryAt - now)
  {
    if i > 0 {
      WaitAt(table[1..], i - 1, now);
    }
  }
}
