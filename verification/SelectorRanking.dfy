/** Ranking selector candidates by heuristic and history (`SelectorRecoveryRanker`). */
module SelectorRanking {
  import opened Experience
  import opened Ordering
  import opened PriorFormula
  import opened Sequences

  datatype Candidate = Candidate(selector: string, selectorType: string, confidence: real)

  datatype Ranked = Ranked(selector: string, selectorType: string, score: real, heuristic: real,
                           prior: Option<real>, samples: nat)

  function Clamp(x: real): (clamped: real)
    ensures 0.0 <= clamped <= 1.0 && (0.0 <= x <= 1.0 ==> clamped == x)
    ensures (x < 0.0 ==> clamped == 0.0) && (x > 1.0 ==> clamped == 1.0)
  {
    if x < 0.0 then 0.0 else if x > 1.0 then 1.0 else x
  }

  function Weight(samples: nat): real {
    if 0.03 * samples as real < 0.18 then 0.03 * samples as real else 0.18
  }

  function Mix(h: real, p: real, w: real): real {
    h * (1.0 - w) + p * w
  }

  function Blended(heuristic: real, prior: Option<real>, samples: nat): real {
    if prior.None? then heuristic
    else Mix(heuristic, prior.value, Weight(samples))
  }

  /** History moves a score towards the prior, by the weight at most, and never beyond it. */
  lemma HistoryBounded(heuristic: real, prior: Option<real>, samples: nat)
    requires 0.0 <= heuristic <= 1.0 && (prior.Some? ==> 0.0 <= prior.value <= 1.0)
    ensures var score := Blended(heuristic, prior, samples);
      && Abs(score - heuristic) <= Weight(samples) <= 0.18 && Weight(samples) <= 0.03 * samples as real
      && (prior.Some? && heuristic <= prior.value ==> heuristic <= score <= prior.value)
      && (prior.Some? && prior.value <= heuristic ==> prior.value <= score <= heuristic)
  {
    hide Mix;
    if prior.Some? {
      Blend(heuristic, prior.value, Weight(samples));
    }
  }

  lemma Blend(h: real, p: real, w: real)
    requires 0.0 <= h <= 1.0 && 0.0 <= p <= 1.0 && 0.0 <= w <= 1.0
    ensures var score := Mix(h, p, w);
      && Abs(score - h) <= w && (h <= p ==> h <= score <= p) && (p <= h ==> p <= score <= h)
  {
    var score := Mix(h, p, w);
    hide Mix;
    if h <= p {
      var whole := p - h;
      var step := whole * w;
      PartOf(whole, w, step);
      BlendIsStep(h, p, w, whole, step);
      StepUp(h, p, w, score, step);
    } else {
      var whole := h - p;
      var step := whole * w;
      PartOf(whole, w, step);
      BlendIsStep(h, p, w, -whole, -step);
      StepDown(h, p, w, score, step);
    }
  }

  lemma BlendIsStep(h: real, p: real, w: real, whole: real, step: real)
    requires p == h + whole && step == whole * w
    ensures Mix(h, p, w) == h + step
  {
    assert (h + whole) * w == h * w + step;
    assert h * (1.0 - w) == h - h * w;
  }

  lemma StepUp(h: real, p: real, w: real, score: real, step: real)
    requires score == h + step && 0.0 <= step <= w && step <= p - h
    ensures Abs(score - h) <= w && h <= score <= p && (p <= h ==> score == h == p)
  {
  }

  lemma StepDown(h: real, p: real, w: real, score: real, step: real)
    requires score == h - step && 0.0 <= step <= w && step <= h - p && p < h
    ensures Abs(score - h) <= w && p <= score <= h
  {
  }

  lemma PartOf(whole: real, part: real, product: real)
    requires 0.0 <= whole <= 1.0 && 0.0 <= part <= 1.0 && product == whole * part
    ensures 0.0 <= product <= part && product <= whole
  {
    ProductNotNegative(whole, part);
    ProductNotNegative(whole, 1.0 - part);
    ProductNotNegative(1.0 - whole, part);
    assert whole * (1.0 - part) == whole - product;
    assert (1.0 - whole) * part == part - product;
  }

  /** History counts three hundredths for each sample, up to the sixth. */
  lemma WeightOf(samples: nat)
    ensures Weight(samples) == if samples >= 6 then 0.18 else 0.03 * samples as real
  {
  }

  /** The score goes exactly that part of the way from the heuristic to the prior. */
  lemma HistoryCounts(heuristic: real, prior: real, samples: nat)
    ensures Blended(heuristic, Some(prior), samples) ==
      if samples >= 6 then heuristic + 0.18 * (prior - heuristic)
      else heuristic + 0.03 * samples as real * (prior - heuristic)
    ensures Blended(heuristic, None, samples) == heuristic
  {
    WeightOf(samples);
    BlendIsStep(heuristic, prior, Weight(samples), prior - heuristic, (prior - heuristic) * Weight(samples));
  }

  /** The order of the result: score down, samples down, selector up. */
  predicate NotAfter(a: Ranked, b: Ranked) {
    a.score > b.score
    || (a.score == b.score && (a.samples > b.samples || (a.samples == b.samples && AtMost(a.selector, b.selector))))
  }

  lemma NotAfterTotal(a: Ranked, b: Ranked)
    ensures NotAfter(a, b) || NotAfter(b, a)
  {
    AtMostTotal(a.selector, b.selector);
  }

  lemma NotAfterTransitive(a: Ranked, b: Ranked, c: Ranked)
    requires NotAfter(a, b) && NotAfter(b, c)
    ensures NotAfter(a, c)
  {
    if AtMost(a.selector, b.selector) && AtMost(b.selector, c.selector) {
      AtMostTransitive(a.selector, b.selector, c.selector);
    }
  }

  ghost predicate InOrder(items: seq<Ranked>) {
    forall i, j :: 0 <= i < j < |items| ==> NotAfter(items[i], items[j])
  }

  /** `sorted`: stable, so each item goes behind those that are not after it. */
  function Inserted(items: seq<Ranked>, item: Ranked): seq<Ranked> {
    if items == [] || NotAfter(items[|items| - 1], item) then items + [item]
    else Inserted(items[..|items| - 1], item) + [items[|items| - 1]]
  }

  function Sorted(items: seq<Ranked>): seq<Ranked> {
    if items == [] then [] else Inserted(Sorted(items[..|items| - 1]), items[|items| - 1])
  }

  lemma {:induction false} InsertedOrder(items: seq<Ranked>, item: Ranked)
    requires InOrder(items)
    ensures InOrder(Inserted(items, item))
    ensures multiset(Inserted(items, item)) == multiset(items) + multiset{item}
  {
    if items != [] {
      var before, last := items[..|items| - 1], items[|items| - 1];
      assert items == before + [last];
      if NotAfter(last, item) {
        forall i | 0 <= i < |items| ensures NotAfter(items[i], item) {
          if i < |items| - 1 {
            NotAfterTransitive(items[i], last, item);
          }
        }
      } else {
        NotAfterTotal(last, item);
        InsertedOrder(before, item);
        var placed := Inserted(before, item);
        forall i | 0 <= i < |placed| ensures NotAfter(placed[i], last) {
          assert placed[i] in multiset(placed);
          assert placed[i] in before || placed[i] == item;
        }
      }
    }
  }

  /** The result is the candidates in order, none lost and none added. */
  lemma {:induction false} SortedOrder(items: seq<Ranked>)
    ensures InOrder(Sorted(items)) && multiset(Sorted(items)) == multiset(items)
  {
    if items != [] {
      var before, last := items[..|items| - 1], items[|items| - 1];
      assert items == before + [last];
      SortedOrder(before);
      InsertedOrder(Sorted(before), last);
    }
  }

  predicate Tied(a: Ranked, b: Ranked) {
    NotAfter(a, b) && NotAfter(b, a)
  }

  ghost function TiedWith(items: seq<Ranked>, sample: Ranked): seq<Ranked> {
    if items == [] then []
    else
      var last := items[|items| - 1];
      TiedWith(items[..|items| - 1], sample) + if Tied(last, sample) then [last] else []
  }

  lemma TiedMore(items: seq<Ranked>, last: Ranked, sample: Ranked)
    ensures TiedWith(items + [last], sample) == TiedWith(items, sample) + if Tied(last, sample) then [last] else []
  {
    assert (items + [last])[..|items|] == items;
  }

  lemma NotBothTied(last: Ranked, item: Ranked, sample: Ranked)
    requires !NotAfter(last, item) && Tied(last, sample)
    ensures !Tied(item, sample)
  {
    if Tied(item, sample) {
      NotAfterTransitive(last, sample, item);
    }
  }

  lemma {:induction false} InsertedStable(items: seq<Ranked>, item: Ranked, sample: Ranked)
    ensures TiedWith(Inserted(items, item), sample) == TiedWith(items + [item], sample)
  {
    hide TiedWith, Tied, NotAfter;
    if items != [] && !NotAfter(items[|items| - 1], item) {
      var before, last := items[..|items| - 1], items[|items| - 1];
      SplitLast(items);
      InsertedStable(before, item, sample);
      TiedMore(Inserted(before, item), last, sample);
      TiedMore(before, item, sample);
      TiedMore(before, last, sample);
      TiedMore(items, item, sample);
      if Tied(last, sample) {
        NotBothTied(last, item, sample);
      }
    }
  }

  /** The sort is stable: items that tie keep the order they had. */
  lemma {:induction false} SortedStable(items: seq<Ranked>, sample: Ranked)
    ensures TiedWith(Sorted(items), sample) == TiedWith(items, sample)
  {
    hide TiedWith;
    if items != [] {
      var before, last := items[..|items| - 1], items[|items| - 1];
      SplitLast(items);
      SortedStable(before, sample);
      InsertedStable(Sorted(before), last, sample);
      TiedMore(Sorted(before), last, sample);
      TiedMore(before, last, sample);
    }
  }

  function RankOne(rows: seq<Outcome>, site: string, keyOf: (string, string) -> string, candidate: Candidate): Ranked {
    var key := keyOf(candidate.selector, candidate.selectorType);
    var heuristic := Clamp(candidate.confidence);
    var prior, samples := PriorOf(rows, site, key), Samples(rows, site, key);
    Ranked(candidate.selector, candidate.selectorType, Round4(Blended(heuristic, prior, samples)), heuristic, prior, samples)
  }

  /** `selector_prior` reads the table for each candidate; where that fails it answers as for an empty table. */
  function Read(rows: seq<Outcome>, failing: set<nat>, i: nat): seq<Outcome> {
    if i in failing then [] else rows
  }

  function RankAll(rows: seq<Outcome>, failing: set<nat>, site: string, keyOf: (string, string) -> string,
                   candidates: seq<Candidate>): seq<Ranked> {
    seq(|candidates|, i requires 0 <= i < |candidates| => RankOne(Read(rows, failing, i), site, keyOf, candidates[i]))
  }

  /** Without its history a candidate keeps its rounded heuristic. */
  lemma UnreadHistory(rows: seq<Outcome>, failing: set<nat>, site: string, keyOf: (string, string) -> string,
                      candidates: seq<Candidate>, i: nat)
    requires i < |candidates| && i in failing
    ensures var ranked := RankAll(rows, failing, site, keyOf, candidates)[i];
      ranked.prior == None && ranked.samples == 0 && ranked.score == Round4(Clamp(candidates[i].confidence))
  {
    NoSamples(site, keyOf(candidates[i].selector, candidates[i].selectorType));
  }

  /** A score is within 0.18 of the heuristic, and the rounding. */
  lemma ScoreNear(rows: seq<Outcome>, site: string, keyOf: (string, string) -> string, candidate: Candidate)
    ensures var ranked := RankOne(rows, site, keyOf, candidate);
      Abs(ranked.score - ranked.heuristic) <= 0.18005
  {
    var key := keyOf(candidate.selector, candidate.selectorType);
    var heuristic := Clamp(candidate.confidence);
    PriorOfBetween(rows, site, key);
    HistoryBounded(heuristic, PriorOf(rows, site, key), Samples(rows, site, key));
    Round4Near(Blended(heuristic, PriorOf(rows, site, key), Samples(rows, site, key)));
  }

  /**
   * Whatever the history, and whatever part of it can be read, the ranking is a permutation of the candidates in
   * order, and a candidate never comes before one whose heuristic is more than 0.3601 better.
   */
  lemma RankingOrder(rows: seq<Outcome>, failing: set<nat>, site: string, keyOf: (string, string) -> string, candidates: seq<Candidate>)
    ensures var ranked := Sorted(RankAll(rows, failing, site, keyOf, candidates));
      && InOrder(ranked) && multiset(ranked) == multiset(RankAll(rows, failing, site, keyOf, candidates))
      && (forall i, j :: 0 <= i < j < |ranked| ==> ranked[j].heuristic <= ranked[i].heuristic + 0.3601)
      && forall i, j :: 0 <= i < j < |ranked| ==>
        && ranked[i].score >= ranked[j].score
        && (ranked[i].score == ranked[j].score ==> ranked[i].samples >= ranked[j].samples)
        && (ranked[i].score == ranked[j].score && ranked[i].samples == ranked[j].samples ==>
          AtMost(ranked[i].selector, ranked[j].selector))
  {
    var all := RankAll(rows, failing, site, keyOf, candidates);
    var ranked := Sorted(all);
    SortedOrder(all);
    forall i | 0 <= i < |ranked| ensures Abs(ranked[i].score - ranked[i].heuristic) <= 0.18005 {
      assert ranked[i] in multiset(ranked);
      assert ranked[i] in all;
      var k :| 0 <= k < |all| && all[k] == ranked[i];
      ScoreNear(Read(rows, failing, k), site, keyOf, candidates[k]);
    }
    hide RankAll, RankOne, Sorted;
    forall i, j | 0 <= i < j < |ranked| ensures ranked[j].heuristic <= ranked[i].heuristic + 0.3601 {
      assert NotAfter(ranked[i], ranked[j]);
      assert ranked[i].score >= ranked[j].score;
    }
  }

  /** `rank`, where the database fails for the candidates in `failing`. */
  method Rank(store: ExperienceStore, failing: set<nat>, site: string, keyOf: (string, string) -> string, candidates: seq<Candidate>)
    returns (ranked: seq<Ranked>)
    ensures ranked == Sorted(RankAll(store.selectors, failing, site, keyOf, candidates))
  {
    var output: seq<Ranked> := [];
    for i := 0 to |candidates|
      invariant |output| == i
      invariant forall j :: 0 <= j < i ==> output[j] == RankOne(Read(store.selectors, failing, j), site, keyOf, candidates[j])
    {
      output := output + [RankOne(Read(store.selectors, failing, i), site, keyOf, candidates[i])];
    }
    assert output == RankAll(store.selectors, failing, site, keyOf, candidates);
    return Sorted(output);
  }
}
