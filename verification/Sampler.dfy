/** Cochran sample sizes and evidence sufficiency (engine/quality/sampler.py). */
module Sampler {
  import opened Common

  datatype SampleError =
    | UnsupportedConfidence | ExpectedRateOutOfRange | TolerableRateOutOfRange | TolerableNotAboveExpected
    | PopulationNotPositive | SampleSizeNotPositive | UnknownTier | QualityOutOfRange

  datatype SamplingParameters = SamplingParameters(confidence: real, expected: real, tolerable: real,
                                                   population: Option<int>)

  datatype SampleSize = SampleSize(nInfinite: int, nFinal: int, corrected: bool)

  function ZScore(confidence: real): Option<real> {
    if confidence == 0.90 then Some(1.6449)
    else if confidence == 0.95 then Some(1.96)
    else if confidence == 0.99 then Some(2.5758)
    else None
  }

  /** The population correction, before it is rounded up. */
  function Corrected(n0: int, n: int): real
    requires n0 >= 1 && n >= 1
  {
    n0 as real / (1.0 + (n0 - 1) as real / n as real)
  }

  function Final(n0: int, n: int): int
    requires n0 >= 1 && n >= 1
  {
    var c := Ceil(Corrected(n0, n));
    if c > 1 then c else 1
  }

  function CochranSampleSize(p: SamplingParameters): Result<SampleSize, SampleError> {
    var z := ZScore(p.confidence);
    if z.None? then Err(UnsupportedConfidence)
    else if !(0.0 < p.expected < 1.0) then Err(ExpectedRateOutOfRange)
    else if !(0.0 < p.tolerable < 1.0) then Err(TolerableRateOutOfRange)
    else if p.tolerable <= p.expected then Err(TolerableNotAboveExpected)
    else
      var n0 := InfiniteSize(z.value, p.expected, p.tolerable);
      if p.population.None? then Ok(SampleSize(n0, n0, false))
      else if p.population.value <= 0 then Err(PopulationNotPositive)
      else Ok(SampleSize(n0, Final(n0, p.population.value), true))
  }

  function InfiniteSize(z: real, p: real, e: real): (n0: int)
    requires z > 0.0 && 0.0 < p < 1.0 && 0.0 < e < 1.0
    ensures n0 >= 1
  {
    var raw := RawSize(z, p, e);
    CeilIsLeast(raw, 0);
    Ceil(raw)
  }

  /** z^2 * p * q / e^2, all factors positive. */
  function RawSize(z: real, p: real, e: real): (raw: real)
    requires z > 0.0 && 0.0 < p < 1.0 && 0.0 < e < 1.0
    ensures raw > 0.0
  {
    Over(Times(Times(z, z), Times(p, 1.0 - p)), Times(e, e))
  }

  function Times(a: real, b: real): (r: real)
    requires a > 0.0 && b > 0.0
    ensures r > 0.0
  {
    a * b
  }

  function Over(a: real, b: real): (r: real)
    requires a > 0.0 && b > 0.0
    ensures r > 0.0
  {
    assert a / b * b == a;
    a / b
  }

  /** The infinite-population size is the least sample whose error bound z * sqrt(p q / m),
      squared to stay in the rationals, is at most the tolerable rate. */
  lemma InfiniteSizeIsLeast(z: real, p: real, e: real, m: int)
    requires z > 0.0 && 0.0 < p < 1.0 && 0.0 < e < 1.0 && m >= 1
    ensures InfiniteSize(z, p, e) <= m <==> z * z * (p * (1.0 - p) / m as real) <= e * e
  {
    var variance, bound, n := p * (1.0 - p), e * e, m as real;
    CeilIsLeast(RawSize(z, p, e), m);
    assert RawSize(z, p, e) == Over(Times(Times(z, z), Times(p, 1.0 - p)), Times(e, e));
    ShareOut(z * z, variance, n);
    SwapDivisor(z * z * variance, bound, n);
  }

  lemma ShareOut(a: real, b: real, n: real)
    requires n > 0.0
    ensures a * (b / n) == (a * b) / n
  {
    var q := b / n;
    assert q * n == b;
    assert (a * q) * n == a * (q * n);
  }

  lemma SwapDivisor(x: real, d: real, n: real)
    requires d > 0.0 && n > 0.0
    ensures x / d <= n <==> x / n <= d
  {
    var q, r := x / d, x / n;
    assert q * d == x && r * n == x;
    Scale(q, n, d);
    Scale(r, d, n);
  }

  // ---- The finite correction ----

  /** The rounded correction is at most `m` exactly when this holds of integers. */
  lemma CorrectedAtMost(n0: int, n: int, m: int)
    requires n0 >= 1 && n >= 1
    ensures Ceil(Corrected(n0, n)) <= m <==> n0 * n <= m * (n + n0 - 1)
  {
    CeilIsLeast(Corrected(n0, n), m);
    RatioAtMost(n0 as real, n as real, m as real);
    RealProduct(n0, n);
    RealProduct(m, n + n0 - 1);
  }

  lemma RealProduct(a: int, b: int)
    ensures (a * b) as real == a as real * b as real
  {
  }

  lemma RatioAtMost(a: real, b: real, m: real)
    requires a >= 1.0 && b >= 1.0
    ensures 1.0 + (a - 1.0) / b > 0.0
    ensures a / (1.0 + (a - 1.0) / b) <= m <==> a * b <= m * (b + a - 1.0)
  {
    var d := b + a - 1.0;
    var s := (a - 1.0) / b;
    assert s * b == a - 1.0;
    assert (1.0 + s) * b == d;
    Cancel(1.0 + s, d / b, b);
    Quotients(a, b, d);
    Scale(a / (d / b), m, d);
  }

  lemma Cancel(x: real, y: real, b: real)
    requires b > 0.0 && x * b == y * b
    ensures x == y
  {
    assert (x - y) * b == 0.0;
  }

  lemma Quotients(a: real, b: real, d: real)
    requires b > 0.0 && d > 0.0
    ensures d / b > 0.0 && (a / (d / b)) * d == a * b
  {
    var r := d / b;
    assert r * b == d;
    assert r > 0.0;
    var q := a / r;
    assert q * r == a;
    assert q * d == q * (r * b) == (q * r) * b;
  }

  lemma Scale(x: real, m: real, d: real)
    requires d > 0.0
    ensures x <= m <==> x * d <= m * d
  {
    if x <= m {
      assert (m - x) * d >= 0.0;
    } else {
      assert (x - m) * d > 0.0;
    }
  }

  /** The corrected size is between 1 and both the infinite-population size and the
      population, and equals the former exactly when the population exceeds (n0 - 1)^2. */
  lemma FinalInRange(n0: int, n: int)
    requires n0 >= 1 && n >= 1
    ensures 1 <= Final(n0, n) <= n0 && Final(n0, n) <= n
    ensures Final(n0, n) == Ceil(Corrected(n0, n))
    ensures Final(n0, n) == n0 <==> n > (n0 - 1) * (n0 - 1)
  {
    CorrectedAtMost(n0, n, 0);
    CorrectedAtMost(n0, n, n0);
    CorrectedAtMost(n0, n, n);
    CorrectedAtMost(n0, n, n0 - 1);
    ProductPositive(n0, n);
    CrossProduct(n0, n);
    CrossProduct(n, n0);
    OneLess(n0, n);
  }

  lemma ProductPositive(a: int, b: int)
    requires a >= 1 && b >= 1
    ensures a * b > 0
  {
  }

  lemma CrossProduct(a: int, b: int)
    requires a >= 1
    ensures b * a <= a * (b + a - 1) && a * b == b * a
  {
    assert a * (b + a - 1) == b * a + a * (a - 1);
  }

  lemma OneLess(n0: int, n: int)
    ensures (n0 - 1) * (n + n0 - 1) == n0 * n - n + (n0 - 1) * (n0 - 1)
  {
  }

  /** A larger population never needs a smaller sample. */
  lemma FinalMonotone(n0: int, n: int, n': int)
    requires n0 >= 1 && 1 <= n <= n'
    ensures Final(n0, n) <= Final(n0, n')
  {
    var m := Final(n0, n');
    FinalInRange(n0, n');
    FinalInRange(n0, n);
    CorrectedAtMost(n0, n', m);
    CorrectedAtMost(n0, n, m);
    SmallerPopulation(n0, n, n', m);
  }

  lemma SmallerPopulation(n0: int, n: int, n': int, m: int)
    requires m <= n0 && n <= n' && n0 * n' <= m * (n' + n0 - 1)
    ensures n0 * n <= m * (n + n0 - 1)
  {
    assert (n0 - m) * (n' - n) >= 0;
  }

  // ---- Sufficiency ----

  datatype Verdict = Sufficient | Marginal | Insufficient

  datatype QualityInput = QualityInput(evidenceId: Uuid, tier: int, quality: real, passes: bool)

  datatype Sufficiency = Sufficiency(weightedSum: real, ratio: real, verdict: Verdict, tiers: map<int, nat>)

  function TierWeight(tier: int): Option<real> {
    if tier == 1 then Some(1.0) else if tier == 2 then Some(0.85) else if tier == 3 then Some(0.7)
    else if tier == 4 then Some(0.55) else if tier == 5 then Some(0.4) else if tier == 6 then Some(0.25)
    else None
  }

  function TierScore(tier: int, quality: real): Result<real, SampleError> {
    if TierWeight(tier).None? then Err(UnknownTier)
    else if !(0.0 <= quality <= 1.0) then Err(QualityOutOfRange)
    else Ok(TierWeight(tier).value * quality)
  }

  /** The weighted sum, or the error of the first item that cannot be scored. */
  function WeightedSum(items: seq<QualityInput>): Result<real, SampleError> {
    if items == [] then Ok(0.0)
    else
      var before, i := WeightedSum(items[..|items| - 1]), items[|items| - 1];
      if before.Err? then before
      else if TierScore(i.tier, i.quality).Err? then TierScore(i.tier, i.quality)
      else Ok(before.value + TierScore(i.tier, i.quality).value)
  }

  function CountTier(items: seq<QualityInput>, tier: int): nat {
    if items == [] then 0
    else CountTier(items[..|items| - 1], tier) + if items[|items| - 1].tier == tier then 1 else 0
  }

  function VerdictOf(ratio: real): Verdict {
    if ratio >= 0.8 then Sufficient else if ratio >= 0.6 then Marginal else Insufficient
  }

  /** The ratio is reported capped at 1; the verdict is taken from it uncapped. */
  method AssessSufficiency(items: seq<QualityInput>, required: int) returns (r: Result<Sufficiency, SampleError>)
    ensures required <= 0 ==> r == Err(SampleSizeNotPositive)
    ensures required > 0 && WeightedSum(items).Err? ==> r == Err(WeightedSum(items).error)
    ensures required > 0 && WeightedSum(items).Ok? ==>
      var sum := WeightedSum(items).value;
      && r.Ok? && r.value.weightedSum == sum && r.value.verdict == VerdictOf(sum / required as real)
      && r.value.ratio == (if sum / required as real < 1.0 then sum / required as real else 1.0)
    ensures r.Ok? ==>
      forall t :: if t in r.value.tiers then r.value.tiers[t] == CountTier(items, t) else CountTier(items, t) == 0
  {
    if required <= 0 {
      return Err(SampleSizeNotPositive);
    }
    var tiers: map<int, nat> := map[];
    var sum := 0.0;
    for k := 0 to |items|
      invariant WeightedSum(items[..k]) == Ok(sum)
      invariant forall t :: if t in tiers then tiers[t] == CountTier(items[..k], t) else CountTier(items[..k], t) == 0
    {
      var i := items[k];
      assert items[..k + 1][..k] == items[..k];
      var score := TierScore(i.tier, i.quality);
      if score.Err? {
        FirstErrorStays(items, k + 1);
        return Err(score.error);
      }
      sum := sum + score.value;
      tiers := tiers[i.tier := if i.tier in tiers then tiers[i.tier] + 1 else 1];
    }
    assert items[..|items|] == items;
    var ratio := sum / required as real;
    r := Ok(Sufficiency(sum, if ratio < 1.0 then ratio else 1.0, VerdictOf(ratio), tiers));
  }

  lemma {:induction false} FirstErrorStays(items: seq<QualityInput>, k: nat)
    requires k <= |items| && WeightedSum(items[..k]).Err?
    ensures WeightedSum(items) == WeightedSum(items[..k])
    decreases |items|
  {
    if k < |items| {
      assert items[..|items| - 1][..k] == items[..k];
      FirstErrorStays(items[..|items| - 1], k);
    } else {
      assert items[..k] == items;
    }
  }

  /** The verdict that the module documentation describes: sufficient only above 0.8. */
  function DocumentedVerdict(ratio: real): Verdict {
    if ratio > 0.8 then Sufficient else if ratio >= 0.6 then Marginal else Insufficient
  }

  /** The verdict boundaries, as sums of scores; the code departs from its module
      documentation exactly when the scores sum up to 0.8 of the required size. */
  lemma VerdictIff(sum: real, required: int)
    requires required > 0
    ensures var n, ratio := required as real, sum / required as real;
      && (VerdictOf(ratio) == Sufficient <==> sum >= 0.8 * n)
      && (VerdictOf(ratio) == Insufficient <==> sum < 0.6 * n)
      && (VerdictOf(ratio) == DocumentedVerdict(ratio) <==> sum != 0.8 * n)
  {
    var n, ratio := required as real, sum / required as real;
    assert ratio * n == sum;
    Scale(0.8, ratio, n);
    Scale(ratio, 0.8, n);
    Scale(0.6, ratio, n);
  }

  /** Four perfect items of the first tier out of five required reach the boundary. */
  lemma FourOfFiveIsSufficient(items: seq<QualityInput>)
    requires |items| == 4 && forall k :: 0 <= k < 4 ==> items[k].tier == 1 && items[k].quality == 1.0
    ensures WeightedSum(items) == Ok(4.0)
    ensures VerdictOf(4.0 / 5.0) == Sufficient && DocumentedVerdict(4.0 / 5.0) == Marginal
  {
    PerfectSum(items, 4);
    assert items[..4] == items;
    VerdictIff(4.0, 5);
  }

  lemma {:induction false} PerfectSum(items: seq<QualityInput>, k: nat)
    requires k <= |items| && forall j :: 0 <= j < |items| ==> items[j].tier == 1 && items[j].quality == 1.0
    ensures WeightedSum(items[..k]) == Ok(k as real)
  {
    if k > 0 {
      PerfectSum(items, k - 1);
      assert items[..k][..k - 1] == items[..k - 1];
    }
  }

  predicate Scorable(items: seq<QualityInput>) {
    forall k :: 0 <= k < |items| ==> 1 <= items[k].tier <= 6 && 0.0 <= items[k].quality <= 1.0
  }

  /** Evidence can be assessed exactly when every tier is 1 to 6 and every quality in [0, 1]. */
  lemma {:induction false} ScorableIff(items: seq<QualityInput>)
    ensures WeightedSum(items).Ok? <==> Scorable(items)
  {
    if items != [] {
      var n := |items| - 1;
      ScorableIff(items[..n]);
      assert Scorable(items) <==> Scorable(items[..n]) && 1 <= items[n].tier <= 6 && 0.0 <= items[n].quality <= 1.0;
    }
  }
}
