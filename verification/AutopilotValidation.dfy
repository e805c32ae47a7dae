/** The production validator's feedback experiment (`AutopilotProductionValidator`). */
module AutopilotValidation {
  import opened Experience
  import opened PriorFormula

  function Site(): string {
    "aaaaaaaaaaaaaaaaaaaaaaaa"
  }

  const ENGINE := "http"

  /** The cases decided by the experiment, and the shifts that `stable` compares with its thresholds. */
  datatype Report = Report(bounded: bool, contaminationBounded: bool, recovered: bool,
                           contaminationShift: real, recoveryShift: real)

  /** `stable`; `others` says whether the latency, quarantine and export cases passed. */
  predicate Stable(report: Report, others: bool) {
    && report.bounded && report.contaminationBounded && report.recovered && others
    && report.contaminationShift <= 0.20 && report.recoveryShift >= 0.04
  }

  /** So many outcomes of the site and engine, so many of them successes, and no others. */
  ghost predicate Tally(log: seq<Outcome>, n: nat, wins: nat) {
    |log| == n && Samples(log, Site(), ENGINE) == n && Wins(log, Site(), ENGINE) == wins
  }

  lemma TallyMore(log: seq<Outcome>, n: nat, wins: nat, success: bool)
    requires Tally(log, n, wins)
    ensures Tally(log + [Outcome(Site(), ENGINE, success)], n + 1, wins + if success then 1 else 0)
  {
    OneMore(log, Outcome(Site(), ENGINE, success), Site(), ENGINE);
  }

  lemma TallySamples(log: seq<Outcome>, n: nat, wins: nat)
    requires Tally(log, n, wins)
    ensures |log| == Samples(log, Site(), ENGINE) == n
  {
  }

  // ----- The three priors the experiment reads -----

  function BaselineWins(samples: nat): nat {
    samples - Failing(samples)
  }

  function Baseline(samples: nat): real {
    Round4(Prior(BaselineWins(samples), samples))
  }

  function Poisoned(samples: nat): real {
    Round4(Prior(BaselineWins(samples), samples + PoisonCount(samples)))
  }

  function Recovered(samples: nat): real {
    var c, r := PoisonCount(samples), RecoverCount(samples);
    Round4(Prior(BaselineWins(samples) + r, samples + c + r))
  }

  predicate Succeeds(index: nat) {
    index % 5 != 0
  }

  lemma NoBaseline()
    ensures Tally([], 0, BaselineWins(0))
  {
  }

  lemma NextBaseline(index: nat)
    ensures BaselineWins(index + 1) == BaselineWins(index) + if Succeeds(index) then 1 else 0
  {
  }

  /** The table is large enough to keep every outcome of the experiment. */
  lemma RoomEnough(samples: nat)
    requires samples >= 40
    ensures samples + PoisonCount(samples) + RecoverCount(samples) <= samples * 8
  {
  }

  /** For every number of samples from 40 on, and with the rounding, both thresholds are met. */
  lemma ThresholdsMet(samples: nat)
    requires samples >= 40
    ensures 0.0 <= Baseline(samples) - Poisoned(samples) <= 0.1601
    ensures Recovered(samples) - Poisoned(samples) >= 0.04
  {
    var wins, c, r := BaselineWins(samples), PoisonCount(samples), RecoverCount(samples);
    var baseline, poisoned, recovered := Prior(wins, samples), Prior(wins, samples + c), Prior(wins + r, samples + c + r);
    PoisonShift(samples);
    RecoveryShift(samples);
    hide Prior, Failing, PoisonCount, RecoverCount, Round4;
    Round4Near(baseline);
    Round4Near(poisoned);
    Round4Near(recovered);
    Round4Monotone(poisoned, baseline);
  }

  class AutopilotProductionValidator {
    const samples: nat

    constructor (samples: int)
      ensures this.samples == if samples < 40 then 40 else if samples > 5000 then 5000 else samples
    {
      this.samples := if samples < 40 then 40 else if samples > 5000 then 5000 else samples;
    }

    /** One outcome of the experiment is recorded; nothing is pruned while the table has room. */
    method Record(store: ExperienceStore, success: bool, ghost n: nat, ghost wins: nat)
      requires store.Valid() && Tally(store.strategyLog, n, wins) && n < store.maxStrategyRows
      modifies store`strategies, store`strategyLog
      ensures store.Valid() && Tally(store.strategyLog, n + 1, wins + if success then 1 else 0)
      ensures store.strategies == store.strategyLog
    {
      TallyMore(store.strategyLog, n, wins, success);
      TallySamples(store.strategyLog, n, wins);
      hide Tally, Site, Samples, Wins;
      var _ := store.RecordStrategy(Site(), ENGINE, success, false);
    }

    /** The baseline: every fifth outcome fails, the first included. */
    method FeedBaseline(store: ExperienceStore)
      requires store.Valid() && store.strategyLog == [] && samples <= store.maxStrategyRows
      modifies store`strategies, store`strategyLog
      ensures store.Valid() && store.strategies == store.strategyLog
      ensures Tally(store.strategyLog, samples, BaselineWins(samples))
    {
      hide Tally, BaselineWins, Succeeds, Site, Samples, Wins;
      NoBaseline();
      assert store.strategies == store.strategyLog;
      for index := 0 to samples
        invariant store.Valid() && store.strategies == store.strategyLog
        invariant Tally(store.strategyLog, index, BaselineWins(index))
      {
        NextBaseline(index);
        Record(store, Succeeds(index), index, BaselineWins(index));
      }
    }

    /** `_bounded_priors`: the case passes. */
    method BoundedPriors(store: ExperienceStore) returns (passed: bool)
      requires store.Valid() && samples > 0 && store.strategyLog == [] && samples <= store.maxStrategyRows
      modifies store`strategies, store`strategyLog
      ensures store.Valid() && passed && store.strategies == store.strategyLog
      ensures Tally(store.strategyLog, samples, BaselineWins(samples))
    {
      SiteIsValid();
      hide Tally, BaselineWins, Site, SiteKey, Samples, Wins, PriorOf;
      FeedBaseline(store);
      TallySamples(store.strategyLog, samples, BaselineWins(samples));
      var priors, counts := store.StrategyPriors(Site(), false);
      var value := if ENGINE in priors then priors[ENGINE] else 0.0;
      passed := 0.0 <= value <= 1.0 && (if ENGINE in counts then counts[ENGINE] else 0) == samples;
    }

    /** `_poison` and `_recover`: the same outcome again and again. */
    method Repeat(store: ExperienceStore, success: bool, count: nat, ghost n: nat, ghost wins: nat)
      requires store.Valid() && store.strategies == store.strategyLog && Tally(store.strategyLog, n, wins)
      requires n + count <= store.maxStrategyRows
      modifies store`strategies, store`strategyLog
      ensures store.Valid() && store.strategies == store.strategyLog
      ensures Tally(store.strategyLog, n + count, wins + if success then count else 0)
    {
      hide Tally, Site, Samples, Wins;
      for k := 0 to count
        invariant store.Valid() && store.strategies == store.strategyLog
        invariant Tally(store.strategyLog, n + k, wins + if success then k else 0)
      {
        Record(store, success, n + k, wins + if success then k else 0);
      }
    }

    /** `_prior` */
    method ReadPrior(store: ExperienceStore, ghost n: nat, ghost wins: nat) returns (prior: real)
      requires Tally(store.strategies, n, wins) && n > 0
      ensures prior == Round4(Prior(wins, n))
    {
      SiteIsValid();
      hide Site, SiteKey;
      var priors, _ := store.StrategyPriors(Site(), false);
      return if ENGINE in priors then priors[ENGINE] else 0.0;
    }

    lemma SiteIsValid()
      ensures SiteKey(Site())
    {
    }

    /**
     * `run`: whatever the number of samples, poisoning shifts the prior by at most 0.20 and recovery raises it
     * by at least 0.04, so the report is stable unless one of the other cases fails.
     */
    method Run() returns (report: Report)
      requires 40 <= samples <= 5000
      ensures report.contaminationShift <= 0.20 && report.recoveryShift >= 0.04
      ensures forall others :: Stable(report, others) <==> others
      ensures report.contaminationShift == Baseline(samples) - Poisoned(samples)
      ensures report.recoveryShift == Recovered(samples) - Poisoned(samples)
    {
      hide Tally, Site, Samples, Wins, Prior, Round4, BaselineWins, PoisonCount, RecoverCount;
      var c, r := PoisonCount(samples), RecoverCount(samples);
      RoomEnough(samples);
      ThresholdsMet(samples);
      var store := new ExperienceStore(if samples * 8 > 500 then samples * 8 else 500, 100_000);
      ghost var wins := BaselineWins(samples);
      var bounded := BoundedPriors(store);
      var before := ReadPrior(store, samples, wins);
      Repeat(store, false, c, samples, wins);
      var poisoned := ReadPrior(store, samples + c, wins);
      var contaminationShift := Abs(poisoned - before);
      Repeat(store, true, r, samples + c, wins);
      var recovered := ReadPrior(store, samples + c + r, wins + r);
      var recoveryShift := recovered - poisoned;
      report := Report(bounded, contaminationShift <= 0.20, recoveryShift >= 0.04, contaminationShift, recoveryShift);
    }
  }
}
