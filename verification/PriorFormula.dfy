/** The success prior (wins + 2) / (n + 4) and how far feedback moves it. */
module PriorFormula {

  function Prior(wins: nat, n: nat): real {
    (wins as real + 2.0) / (n as real + 4.0)
  }

  /** Rounding to four decimals. */
  function Round4(x: real): real {
    (x * 10000.0 + 0.5).Floor as real / 10000.0
  }

  lemma Round4Near(x: real)
    ensures x - 0.00005 < Round4(x) <= x + 0.00005
  {
    var scaled := x * 10000.0 + 0.5;
    assert scaled - 1.0 < scaled.Floor as real <= scaled;
  }

  lemma Round4Monotone(x: real, y: real)
    requires x <= y
    ensures Round4(x) <= Round4(y)
  {
    var low, high := x * 10000.0 + 0.5, y * 10000.0 + 0.5;
    assert low.Floor as real <= low <= high < high.Floor as real + 1.0;
    assert low.Floor <= high.Floor;
  }

  lemma Round4Between(x: real)
    requires 0.0 <= x <= 1.0
    ensures 0.0 <= Round4(x) <= 1.0
  {
    var scaled := x * 10000.0 + 0.5;
    assert 0 <= scaled.Floor <= 10000;
  }

  lemma PriorTimes(wins: nat, n: nat)
    ensures Prior(wins, n) * (n as real + 4.0) == wins as real + 2.0
  {
  }

  lemma ProductPositive(x: real, y: real)
    requires y > 0.0
    ensures x * y > 0.0 <==> x > 0.0
    ensures x * y >= 0.0 <==> x >= 0.0
  {
  }

  lemma ProductNotNegative(x: real, y: real)
    requires x >= 0.0 && y >= 0.0
    ensures x * y >= 0.0
  {
    if y > 0.0 {
      ProductPositive(x, y);
    }
  }

  /** Without feedback the prior is one half, and wins and losses count alike. */
  lemma PriorEven(wins: nat, n: nat)
    requires wins <= n
    ensures Prior(0, 0) == 0.5
    ensures Prior(wins, n) + Prior(n - wins, n) == 1.0
  {
    var m := n as real + 4.0;
    PriorTimes(wins, n);
    PriorTimes(n - wins, n);
    var one, other := Prior(wins, n), Prior(n - wins, n);
    var sum := one + other;
    assert (one + other) * m == one * m + other * m;
    ProductPositive(sum - 1.0, m);
    ProductPositive(1.0 - sum, m);
    assert (sum - 1.0) * m == 0.0;
  }

  /** A prior is never 0 or 1, however one-sided the feedback. */
  lemma PriorBetween(wins: nat, n: nat)
    requires wins <= n
    ensures 0.0 < Prior(wins, n) < 1.0
  {
    var p, m := Prior(wins, n), n as real + 4.0;
    PriorTimes(wins, n);
    ProductPositive(p, m);
    ProductPositive(1.0 - p, m);
  }

  /** k more outcomes, s of them successes, move the prior by (s - k p) / (n + 4 + k). */
  lemma Moves(wins: nat, n: nat, s: nat, k: nat)
    requires s <= k
    ensures (Prior(wins + s, n + k) - Prior(wins, n)) * (n as real + 4.0 + k as real) ==
      s as real - k as real * Prior(wins, n)
  {
    var p, after := Prior(wins, n), Prior(wins + s, n + k);
    PriorTimes(wins, n);
    PriorTimes(wins + s, n + k);
    var m, more := n as real + 4.0, k as real;
    assert after * (m + more) == p * m + s as real;
    assert (after - p) * (m + more) == after * (m + more) - p * m - p * more;
  }

  function Abs(x: real): real {
    if x < 0.0 then -x else x
  }

  lemma AbsBelow(x: real, y: real, bound: real)
    requires y > 0.0 && Abs(x * y) < bound * y
    ensures Abs(x) < bound
  {
    ProductPositive(bound - x, y);
    ProductPositive(bound + x, y);
    assert (bound - x) * y == bound * y - x * y;
    assert (bound + x) * y == bound * y + x * y;
  }

  /** One outcome moves the prior by less than 1 / (n + 5). */
  lemma OneOutcome(wins: nat, n: nat, success: bool)
    requires wins <= n
    ensures Abs(Prior(wins + if success then 1 else 0, n + 1) - Prior(wins, n)) < 1.0 / (n as real + 5.0)
  {
    var s := if success then 1 else 0;
    Moves(wins, n, s, 1);
    PriorBetween(wins, n);
    var y := n as real + 5.0;
    var x := Prior(wins + s, n + 1) - Prior(wins, n);
    assert x * y == s as real - Prior(wins, n);
    assert (1.0 / y) * y == 1.0;
    AbsBelow(x, y, 1.0 / y);
  }

  /** When the oldest outcome is forgotten for a new one of the same kind, the prior moves by 1 / (n + 4) at most. */
  lemma OneReplaced(wins: nat, n: nat, forgotten: bool, success: bool)
    requires wins <= n && n > 0 && (forgotten ==> wins > 0)
    ensures var before := if forgotten then wins - 1 else wins;
      Abs(Prior(before + if success then 1 else 0, n) - Prior(wins, n)) * (n as real + 4.0) <= 1.0
  {
    var before := if forgotten then wins - 1 else wins;
    var after := before + if success then 1 else 0;
    PriorTimes(wins, n);
    PriorTimes(after, n);
    var m := n as real + 4.0;
    var x := Prior(after, n) - Prior(wins, n);
    assert x * m == after as real - wins as real;
    assert (-x) * m == wins as real - after as real;
  }

  // ----- The validator's feedback -----

  /** Failures among `n` samples of which every fifth fails, the first included. */
  function Failing(n: nat): nat {
    (n + 4) / 5
  }

  function PoisonCount(samples: nat): nat {
    if samples / 10 > 10 then samples / 10 else 10
  }

  function RecoverCount(samples: nat): nat {
    if samples / 5 > 20 then samples / 5 else 20
  }

  /** Real-number core of `PoisonShift`: from a prior below 0.8, few failures shift it by less than 0.16. */
  lemma ShiftBelow(p: real, shift: real, k: real, total: real)
    requires 0.0 < p < 0.8 && 0.0 < k && 5.0 * k <= total && shift * total == k * p
    ensures 0.0 < shift < 0.16
  {
    ProductPositive(p, k);
    ProductPositive(shift, total);
    ProductPositive(0.8 - p, k);
    assert (0.8 - p) * k == 0.8 * k - k * p;
    assert (0.16 - shift) * total == 0.16 * total - k * p;
    ProductPositive(0.16 - shift, total);
  }

  lemma BaselineBelow(samples: nat)
    requires samples > 0
    ensures Prior(samples - Failing(samples), samples) < 0.8
  {
    var wins := samples - Failing(samples);
    var p, m := Prior(wins, samples), samples as real + 4.0;
    PriorTimes(wins, samples);
    hide Prior;
    assert 5 * wins <= 4 * samples;
    assert (0.8 - p) * m == 0.8 * m - (wins as real + 2.0);
    ProductPositive(0.8 - p, m);
  }

  /** Poisoning moves the baseline prior down, by less than 0.16. */
  lemma PoisonShift(samples: nat)
    requires samples >= 40
    ensures var wins, k := samples - Failing(samples), PoisonCount(samples);
      0.0 < Prior(wins, samples) - Prior(wins, samples + k) < 0.16
  {
    var wins, k := samples - Failing(samples), PoisonCount(samples);
    var total := samples as real + 4.0 + k as real;
    var p, after := Prior(wins, samples), Prior(wins, samples + k);
    Moves(wins, samples, 0, k);
    PriorBetween(wins, samples);
    BaselineBelow(samples);
    hide Prior;
    assert 4 * k <= samples;
    assert (p - after) * total == -((after - p) * total);
    ShiftBelow(p, p - after, k as real, total);
  }

  lemma SmallSquare(n: nat)
    requires 40 <= n < 100
    ensures n * n <= 139 * n - 3960
  {
    assert (n - 40) * (99 - n) >= 0;
    assert (n - 40) * (99 - n) == 139 * n - n * n - 3960;
  }

  lemma SmallProduct(n: nat)
    ensures (n + 14) * (n + 34) == n * n + 48 * n + 476
  {
  }

  lemma SmallSamples(n: nat, l: nat)
    requires 40 <= n < 100 && 5 * l >= n
    ensures 10000 * (20 * (12 + l)) >= 401 * ((n + 14) * (n + 34))
  {
    SmallSquare(n);
    SmallProduct(n);
    SmallLinear(n, l, n * n);
    Scaled(n * n + 48 * n + 476, (n + 14) * (n + 34));
  }

  lemma Scaled(a: nat, b: nat)
    requires a == b
    ensures 401 * a == 401 * b
  {
  }

  lemma SmallLinear(n: nat, l: nat, square: nat)
    requires 40 <= n < 100 && 5 * l >= n && square <= 139 * n - 3960
    ensures 10000 * (20 * (12 + l)) >= 401 * (square + 48 * n + 476)
  {
  }

  lemma {:induction false} CastProduct(a: nat, b: nat)
    ensures (a * b) as real == a as real * b as real
  {
    if a > 0 {
      CastProduct(a - 1, b);
      assert a * b == (a - 1) * b + b;
    }
  }

  lemma LargeSamples(q: nat, s: nat)
    requires q >= 10 && s < 10
    ensures var a, b := if s >= 5 then 1 else 0, (s + 4) / 5;
      10000 * ((2 * q + a) * (3 * q + 2 + b)) >= 401 * ((11 * q + s + 4) * (13 * q + s + a + 4))
  {
    var a, b := if s >= 5 then 1 else 0, (s + 4) / 5;
    assert q * q >= 10 * q;
    TwoFactors(2, a, 3, 2 + b, q);
    TwoFactors(11, s + 4, 13, s + a + 4, q);
    var left, right := (2 * q + a) * (3 * q + (2 + b)), (11 * q + (s + 4)) * (13 * q + (s + a + 4));
    if s == 0 {} else if s == 1 {} else if s == 2 {} else if s == 3 {} else if s == 4 {}
    else if s == 5 {} else if s == 6 {} else if s == 7 {} else if s == 8 {} else {}
    assert 10000 * left >= 401 * right;
  }

  lemma TwoFactors(a: nat, b: nat, c: nat, d: nat, q: nat)
    ensures (a * q + b) * (c * q + d) == a * c * (q * q) + (a * d + b * c) * q + b * d
  {
    var x, y := a * q, c * q;
    assert (x + b) * (y + d) == x * y + x * d + b * y + b * d;
    assert x * y == a * c * (q * q);
    assert x * d == a * d * q && b * y == b * c * q;
  }

  /** The recovery inequality in whole numbers. */
  lemma RecoveryMargin(samples: nat)
    requires samples >= 40
    ensures var c, r, l := PoisonCount(samples), RecoverCount(samples), Failing(samples);
      10000 * (r * (c + 2 + l)) >= 401 * ((samples + c + 4) * (samples + c + r + 4))
  {
    if samples < 100 {
      SmallSamples(samples, Failing(samples));
    } else {
      var q, s := samples / 10, samples % 10;
      LargeSamples(q, s);
      LargeCounts(q, s);
    }
  }

  lemma LargeCounts(q: nat, s: nat)
    requires q >= 10 && s < 10
    ensures PoisonCount(10 * q + s) == q
    ensures RecoverCount(10 * q + s) == 2 * q + if s >= 5 then 1 else 0
    ensures Failing(10 * q + s) == 2 * q + (s + 4) / 5
  {
  }

  lemma RecoveryGeneral(wins: nat, n: nat, r: nat, top: nat)
    requires wins + top == n + 2
    requires 10000.0 * (r as real * top as real) >= 401.0 * ((n as real + 4.0) * (n as real + 4.0 + r as real))
    ensures Prior(wins + r, n + r) - Prior(wins, n) >= 0.0401
  {
    hide Prior;
    var p := Prior(wins, n);
    var m, shift := n as real + 4.0, Prior(wins + r, n + r) - p;
    assert p * m == m - top as real by { PriorTimes(wins, n); }
    assert shift * (m + r as real) == r as real - r as real * p by { Moves(wins, n, r, r); }
    RecoveryCore(shift, m, r as real, p, top as real);
  }

  lemma IntoReals(n: nat, r: nat, top: nat)
    requires 10000 * (r * top) >= 401 * ((n + 4) * (n + r + 4))
    ensures 10000.0 * (r as real * top as real) >= 401.0 * ((n as real + 4.0) * (n as real + 4.0 + r as real))
  {
    CastProduct(r, top);
    CastProduct(n + 4, n + r + 4);
    CastAtLeast(r * top, (n + 4) * (n + r + 4));
    assert (n + 4) as real == n as real + 4.0;
    assert (n + r + 4) as real == n as real + 4.0 + r as real;
  }

  /** Recovery raises the poisoned prior by at least 0.0401: enough for 0.04 after rounding. */
  lemma RecoveryShift(samples: nat)
    requires samples >= 40
    ensures var wins, c, r := samples - Failing(samples), PoisonCount(samples), RecoverCount(samples);
      Prior(wins + r, samples + c + r) - Prior(wins, samples + c) >= 0.0401
  {
    var wins, c, r, l := samples - Failing(samples), PoisonCount(samples), RecoverCount(samples), Failing(samples);
    RecoveryMargin(samples);
    hide Prior, PoisonCount, RecoverCount, Failing;
    IntoReals(samples + c, r, c + 2 + l);
    RecoveryGeneral(wins, samples + c, r, c + 2 + l);
  }

  lemma RecoveryCore(shift: real, m: real, r: real, p: real, top: real)
    requires m > 0.0 && r >= 0.0
    requires p * m == m - top
    requires shift * (m + r) == r - r * p
    requires 10000.0 * (r * top) >= 401.0 * (m * (m + r))
    ensures shift >= 0.0401
  {
    Complement(p, m, top);
    Complement(p, r, r - r * p);
    RecoveryReal(shift, m + r, m, r, 1.0 - p, top);
  }

  lemma CastAtLeast(a: nat, b: nat)
    requires 10000 * a >= 401 * b
    ensures 10000.0 * a as real >= 401.0 * b as real
  {
    assert (10000 * a) as real == 10000.0 * a as real;
    assert (401 * b) as real == 401.0 * b as real;
  }

  lemma Complement(p: real, m: real, rest: real)
    requires p * m == m - rest
    ensures (1.0 - p) * m == rest
  {
  }

  lemma RecoveryReal(shift: real, total: real, m: real, r: real, miss: real, top: real)
    requires total > 0.0 && m > 0.0 && miss * m == top && shift * total == r * miss
    requires 10000.0 * (r * top) >= 401.0 * (m * total)
    ensures shift >= 0.0401
  {
    assert r * top == (r * miss) * m;
    assert (shift * total) * m == shift * (m * total);
    var area := m * total;
    ProductPositive(total, m);
    assert (10000.0 * shift - 401.0) * area == 10000.0 * (shift * area) - 401.0 * area;
    ProductPositive(10000.0 * shift - 401.0, area);
  }
}
