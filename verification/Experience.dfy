/** The outcome tables of the autopilot (`ExperienceStore`), rows in the order of their ids. */
module Experience {
  import opened PriorFormula
  import opened Sequences

  /** The key is the engine of a strategy outcome, or the candidate key of a selector outcome. */
  datatype Outcome = Outcome(site: string, key: string, success: bool)

  datatype Option<T> = None | Some(value: T)

  datatype Recorded = Stored | EngineUnsupported | SiteInvalid | KeyInvalid | DatabaseFailed

  const ENGINES := {"http", "api", "browser", "distributed"}

  predicate SiteKey(site: string) {
    |site| == 24 && forall i :: 0 <= i < |site| ==> '0' <= site[i] <= '9' || 'a' <= site[i] <= 'f'
  }

  function Samples(rows: seq<Outcome>, site: string, key: string): nat {
    if rows == [] then 0
    else
      var last := rows[|rows| - 1];
      Samples(rows[..|rows| - 1], site, key) + if last.site == site && last.key == key then 1 else 0
  }

  function Wins(rows: seq<Outcome>, site: string, key: string): nat {
    if rows == [] then 0
    else
      var last := rows[|rows| - 1];
      Wins(rows[..|rows| - 1], site, key) + if last.site == site && last.key == key && last.success then 1 else 0
  }

  lemma {:induction false} WinsAtMost(rows: seq<Outcome>, site: string, key: string)
    ensures Wins(rows, site, key) <= Samples(rows, site, key)
  {
    if rows != [] {
      WinsAtMost(rows[..|rows| - 1], site, key);
    }
  }

  lemma OneMore(rows: seq<Outcome>, outcome: Outcome, site: string, key: string)
    ensures var counts := outcome.site == site && outcome.key == key;
      && Samples(rows + [outcome], site, key) == Samples(rows, site, key) + (if counts then 1 else 0)
      && Wins(rows + [outcome], site, key) == Wins(rows, site, key) + (if counts && outcome.success then 1 else 0)
  {
    assert (rows + [outcome])[..|rows|] == rows;
  }

  /** The prior of one key at one site, with the number of samples behind it. */
  function PriorOf(rows: seq<Outcome>, site: string, key: string): Option<real> {
    if Samples(rows, site, key) == 0 then None
    else Some(Round4(Prior(Wins(rows, site, key), Samples(rows, site, key))))
  }

  lemma PriorOfBetween(rows: seq<Outcome>, site: string, key: string)
    ensures PriorOf(rows, site, key).Some? ==> 0.0 <= PriorOf(rows, site, key).value <= 1.0
  {
    WinsAtMost(rows, site, key);
    if Samples(rows, site, key) > 0 {
      PriorBetween(Wins(rows, site, key), Samples(rows, site, key));
      Round4Between(Prior(Wins(rows, site, key), Samples(rows, site, key)));
    }
  }

  /**
   * As long as nothing is pruned, one more outcome moves the prior of its key by less than 1 / (n + 5) before
   * rounding, and no other prior at all.
   */
  lemma OneOutcomeMoves(rows: seq<Outcome>, outcome: Outcome, site: string, key: string)
    ensures var n, wins := Samples(rows, site, key), Wins(rows, site, key);
      var more, won := Samples(rows + [outcome], site, key), Wins(rows + [outcome], site, key);
      if outcome.site == site && outcome.key == key
      then more == n + 1 && Abs(Prior(won, more) - Prior(wins, n)) < 1.0 / (n as real + 5.0)
      else PriorOf(rows + [outcome], site, key) == PriorOf(rows, site, key)
  {
    OneMore(rows, outcome, site, key);
    WinsAtMost(rows, site, key);
    OneOutcome(Wins(rows, site, key), Samples(rows, site, key), outcome.success);
  }

  lemma {:induction false} FirstCounts(first: Outcome, rest: seq<Outcome>, site: string, key: string)
    ensures var counts := first.site == site && first.key == key;
      && Samples([first] + rest, site, key) == Samples(rest, site, key) + (if counts then 1 else 0)
      && Wins([first] + rest, site, key) == Wins(rest, site, key) + (if counts && first.success then 1 else 0)
  {
    hide Samples, Wins;
    if rest == [] {
      OneMore([], first, site, key);
      NoSamples(site, key);
      assert [first] + rest == [] + [first];
    } else {
      var before, last := rest[..|rest| - 1], rest[|rest| - 1];
      SplitLast(rest);
      FirstCounts(first, before, site, key);
      AppendAssociative([first], before, [last]);
      OneMore([first] + before, last, site, key);
      OneMore(before, last, site, key);
    }
  }

  lemma NoSamples(site: string, key: string)
    ensures Samples([], site, key) == 0 && Wins([], site, key) == 0
  {
  }

  ghost predicate Counts(outcome: Outcome, site: string, key: string) {
    outcome.site == site && outcome.key == key
  }

  /** The prior before rounding. */
  ghost function PriorAt(rows: seq<Outcome>, site: string, key: string): real {
    Prior(Wins(rows, site, key), Samples(rows, site, key))
  }

  /** The prior of the key moved by at most 1 / (n + 4), where n were its samples before. */
  ghost predicate MovesLittle(before: seq<Outcome>, after: seq<Outcome>, site: string, key: string) {
    Abs(PriorAt(after, site, key) - PriorAt(before, site, key)) * (Samples(before, site, key) as real + 4.0) <= 1.0
  }

  lemma RoomLeft(rows: seq<Outcome>, outcome: Outcome, site: string, key: string)
    ensures MovesLittle(rows, rows + [outcome], site, key)
    ensures !Counts(outcome, site, key) ==> PriorOf(rows + [outcome], site, key) == PriorOf(rows, site, key)
  {
    hide Samples, Wins, Prior;
    WinsAtMost(rows, site, key);
    OneMore(rows, outcome, site, key);
    Inserted(Wins(rows, site, key), Samples(rows, site, key), Counts(outcome, site, key), outcome.success);
  }

  lemma FirstForgotten(first: Outcome, rest: seq<Outcome>, outcome: Outcome, site: string, key: string)
    ensures MovesLittle([first] + rest, rest + [outcome], site, key)
    ensures !Counts(outcome, site, key) && !Counts(first, site, key) ==>
      PriorOf(rest + [outcome], site, key) == PriorOf([first] + rest, site, key)
  {
    hide Samples, Wins, Prior;
    WinsAtMost(rest, site, key);
    WinsAtMost([first] + rest, site, key);
    FirstCounts(first, rest, site, key);
    OneMore(rest, outcome, site, key);
    Replaced(Wins([first] + rest, site, key), Samples([first] + rest, site, key),
             Counts(first, site, key), first.success, Counts(outcome, site, key), outcome.success);
  }

  /**
   * Recording one outcome in a table within its limit, whether or not that pushes out the oldest row: a prior
   * moves by at most 1 / (n + 4), and only if it is the prior of the new or of the forgotten row.
   */
  lemma RecordMoves(rows: seq<Outcome>, outcome: Outcome, limit: nat, site: string, key: string)
    requires |rows| <= limit && limit > 0
    ensures var after := LastOf(rows + [outcome], limit);
      && MovesLittle(rows, after, site, key)
      && (!Counts(outcome, site, key) && (|rows| < limit || !Counts(rows[0], site, key)) ==>
        PriorOf(after, site, key) == PriorOf(rows, site, key))
  {
    hide MovesLittle, PriorOf;
    if |rows| < limit {
      RoomLeft(rows, outcome, site, key);
      assert LastOf(rows + [outcome], limit) == rows + [outcome];
    } else {
      assert rows == [rows[0]] + rows[1..];
      assert LastOf(rows + [outcome], limit) == rows[1..] + [outcome];
      FirstForgotten(rows[0], rows[1..], outcome, site, key);
    }
  }

  lemma Inserted(wins: nat, n: nat, counts: bool, success: bool)
    requires wins <= n
    ensures var more, won := n + (if counts then 1 else 0), wins + (if counts && success then 1 else 0);
      Abs(Prior(won, more) - Prior(wins, n)) * (n as real + 4.0) <= 1.0
  {
    if counts {
      OneOutcome(wins, n, success);
      Rescaled(Abs(Prior(wins + if success then 1 else 0, n + 1) - Prior(wins, n)), n as real + 5.0, n as real + 4.0);
    }
  }

  lemma Replaced(wins: nat, n: nat, forgets: bool, forgotten: bool, counts: bool, success: bool)
    requires wins <= n && (forgets ==> n > 0) && (forgets && forgotten ==> wins > 0) && (forgets && !forgotten ==> wins < n)
    ensures var more := n - (if forgets then 1 else 0) + (if counts then 1 else 0);
      var won := wins - (if forgets && forgotten then 1 else 0) + (if counts && success then 1 else 0);
      Abs(Prior(won, more) - Prior(wins, n)) * (n as real + 4.0) <= 1.0
  {
    hide Prior;
    if !forgets {
      Inserted(wins, n, counts, success);
    } else if counts {
      OneReplaced(wins, n, forgotten, success);
    } else {
      var before: nat := if forgotten then wins - 1 else wins;
      OneOutcome(before, n - 1, forgotten);
      Rescaled(Abs(Prior(wins, n) - Prior(before, n - 1)), n as real + 4.0, n as real + 4.0);
    }
  }

  lemma Rescaled(x: real, large: real, small: real)
    requires 0.0 < small <= large && 0.0 <= x < 1.0 / large
    ensures x * small <= 1.0
  {
    ProductPositive(1.0 / large - x, large);
    assert (1.0 / large - x) * large == 1.0 - x * large;
    ProductNotNegative(x, large - small);
    assert x * (large - small) == x * large - x * small;
  }

  class ExperienceStore {
    const maxStrategyRows: nat
    const maxSelectorRows: nat
    var strategies: seq<Outcome>
    var selectors: seq<Outcome>
    ghost var strategyLog: seq<Outcome>
    ghost var selectorLog: seq<Outcome>

    /** Each table holds exactly the last outcomes that were recorded, up to its limit. */
    ghost predicate Valid()
      reads this
    {
      && 1_000 <= maxStrategyRows <= 2_000_000 && 1_000 <= maxSelectorRows <= 2_000_000
      && strategies == LastOf(strategyLog, maxStrategyRows)
      && selectors == LastOf(selectorLog, maxSelectorRows)
    }

    constructor (strategyRows: int, selectorRows: int)
      ensures Valid() && strategyLog == [] && selectorLog == []
      ensures maxStrategyRows == if strategyRows < 1_000 then 1_000 else if strategyRows > 2_000_000 then 2_000_000 else strategyRows
      ensures maxSelectorRows == if selectorRows < 1_000 then 1_000 else if selectorRows > 2_000_000 then 2_000_000 else selectorRows
    {
      maxStrategyRows := if strategyRows < 1_000 then 1_000 else if strategyRows > 2_000_000 then 2_000_000 else strategyRows;
      maxSelectorRows := if selectorRows < 1_000 then 1_000 else if selectorRows > 2_000_000 then 2_000_000 else selectorRows;
      strategies, selectors, strategyLog, selectorLog := [], [], [], [];
    }

    /** `record_strategy`; a failing database rolls the insertion back. */
    method RecordStrategy(site: string, engine: string, success: bool, fault: bool) returns (recorded: Recorded)
      requires Valid()
      modifies this`strategies, this`strategyLog
      ensures Valid()
      ensures recorded == if engine !in ENGINES then EngineUnsupported else if fault then DatabaseFailed else Stored
      ensures strategyLog == if recorded.Stored? then old(strategyLog) + [Outcome(site, engine, success)] else old(strategyLog)
    {
      if engine !in ENGINES {
        return EngineUnsupported;
      }
      if fault {
        return DatabaseFailed;
      }
      LastOfAppend(strategyLog, maxStrategyRows, Outcome(site, engine, success));
      strategies := PruneTable(strategies + [Outcome(site, engine, success)], maxStrategyRows);
      strategyLog := strategyLog + [Outcome(site, engine, success)];
      return Stored;
    }

    /** `record_selector` */
    method RecordSelector(site: string, key: string, success: bool, fault: bool) returns (recorded: Recorded)
      requires Valid()
      modifies this`selectors, this`selectorLog
      ensures Valid()
      ensures recorded == if !SiteKey(site) then SiteInvalid else if key == "" || |key| > 120 then KeyInvalid
                          else if fault then DatabaseFailed else Stored
      ensures selectorLog == if recorded.Stored? then old(selectorLog) + [Outcome(site, key, success)] else old(selectorLog)
    {
      if !SiteKey(site) {
        return SiteInvalid;
      }
      if key == "" || |key| > 120 {
        return KeyInvalid;
      }
      if fault {
        return DatabaseFailed;
      }
      LastOfAppend(selectorLog, maxSelectorRows, Outcome(site, key, success));
      selectors := PruneTable(selectors + [Outcome(site, key, success)], maxSelectorRows);
      selectorLog := selectorLog + [Outcome(site, key, success)];
      return Stored;
    }

    /**
     * `strategy_priors`: every engine with outcomes at the site, its prior and its number of samples; nothing for
     * an invalid site or a failing database.
     */
    method StrategyPriors(site: string, fault: bool) returns (priors: map<string, real>, samples: map<string, nat>)
      ensures !SiteKey(site) || fault ==> priors == map[] && samples == map[]
      ensures SiteKey(site) && !fault ==> forall engine ::
        && (engine in priors <==> Samples(strategies, site, engine) > 0)
        && (engine in priors ==> Some(priors[engine]) == PriorOf(strategies, site, engine) && 0.0 <= priors[engine] <= 1.0)
      ensures samples.Keys == priors.Keys
      ensures forall engine :: engine in samples ==> samples[engine] == Samples(strategies, site, engine)
    {
      if !SiteKey(site) {
        return map[], map[];
      }
      if fault {
        return map[], map[];
      }
      var engines := set outcome | outcome in strategies && outcome.site == site :: outcome.key;
      forall engine ensures engine in engines <==> Samples(strategies, site, engine) > 0 {
        SampledKeys(strategies, site, engine);
      }
      forall engine ensures PriorOf(strategies, site, engine).Some? ==> 0.0 <= PriorOf(strategies, site, engine).value <= 1.0 {
        PriorOfBetween(strategies, site, engine);
      }
      priors := map engine | engine in engines :: PriorOf(strategies, site, engine).value;
      samples := map engine | engine in engines :: Samples(strategies, site, engine);
    }
  }

  lemma {:induction false} SampledKeys(rows: seq<Outcome>, site: string, key: string)
    ensures Samples(rows, site, key) > 0 <==> exists outcome :: outcome in rows && outcome.site == site && outcome.key == key
  {
    if rows != [] {
      var before, last := rows[..|rows| - 1], rows[|rows| - 1];
      SampledKeys(before, site, key);
      assert rows == before + [last];
    }
  }

  /** `_prune_table`: the rows with the lowest ids go. */
  method PruneTable(rows: seq<Outcome>, maximum: nat) returns (pruned: seq<Outcome>)
    ensures pruned == LastOf(rows, maximum)
  {
    var excess := |rows| - maximum;
    if excess <= 0 {
      return rows;
    }
    return rows[excess..];
  }
}
