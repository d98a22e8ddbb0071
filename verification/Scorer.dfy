/** Bayesian risk scoring (engine/risk/scorer.py) and its per-organisation thresholds
    (engine/risk/aggregator.py), over exact reals. */
module RiskScorer {
  import opened Common

  const PENALTY_RATIO := 5.0
  const MATERIALITY_THRESHOLD := 3.5
  const TDR_MATERIAL := 0.05
  const TDR_NON_MATERIAL := 0.10

  datatype Conclusion = Effective | PartiallyEffective | NotEffective

  datatype EvidenceItem = EvidenceItem(evidenceId: Uuid, passes: bool, quality: real, tier: int)

  datatype ScoreError = PriorOutOfRange | DivisionByZero

  /** How bad a conclusion is. */
  function Severity(c: Conclusion): nat {
    match c
    case Effective => 0
    case PartiallyEffective => 1
    case NotEffective => 2
  }

  function Clamp(x: real): real {
    if x > 1.0 then 1.0 else if x < 0.0 then 0.0 else x
  }

  // ---- Likelihoods ----

  predicate ValidTier(tier: int) {
    1 <= tier <= 6
  }

  ghost predicate ValidTiers(items: seq<EvidenceItem>) {
    forall i :: i in items ==> ValidTier(i.tier)
  }

  function Mul(a: real, b: real): real {
    a * b
  }

  function TierWeight(tier: int): real {
    1.0 - (tier - 1) as real * 0.1
  }

  function Weight(i: EvidenceItem): real {
    Mul(Clamp(i.quality), TierWeight(i.tier))
  }

  function Blend(likelihood: real, weight: real): real {
    likelihood * weight + (1.0 - weight) * 0.5
  }

  /** Probability of the item if the control is effective, and if it is not. */
  function GivenEffective(i: EvidenceItem): real {
    Blend(if i.passes then 0.92 else 1.0 - 0.92, Weight(i))
  }

  function GivenIneffective(i: EvidenceItem): real {
    Blend(if i.passes then 0.15 else 1.0 - 0.15, Weight(i))
  }

  lemma WeightInRange(i: EvidenceItem)
    requires ValidTier(i.tier)
    ensures 0.0 <= Weight(i) <= 1.0
  {
    MulMono(Clamp(i.quality), 1.0, TierWeight(i.tier), 1.0);
  }

  /** An item that neither hypothesis rules out. */
  predicate Informative(i: EvidenceItem) {
    GivenEffective(i) > 0.0 && GivenIneffective(i) > 0.0
  }

  ghost predicate AllInformative(items: seq<EvidenceItem>) {
    forall i :: i in items ==> Informative(i)
  }

  /** Items of the documented tiers are informative, whatever their quality; an item of
      another tier is exactly within these bounds of its weight. */
  lemma InformativeIff(i: EvidenceItem)
    ensures Informative(i) <==>
      if i.passes then -1.0 < 0.84 * Weight(i) && 0.7 * Weight(i) < 1.0
      else 0.84 * Weight(i) < 1.0 && -1.0 < 0.7 * Weight(i)
    ensures ValidTier(i.tier) ==> Informative(i) && Weight(i) >= 0.0
  {
    if ValidTier(i.tier) {
      WeightInRange(i);
    }
  }

  lemma ListedTiersAreInformative(items: seq<EvidenceItem>)
    requires ValidTiers(items)
    ensures AllInformative(items)
  {
    forall i | i in items
      ensures Informative(i)
    {
      InformativeIff(i);
    }
  }

  /** An item updates the belief with less than the full strength of its tier exactly when its
      quality is below 1: also at a quality of 0.5 and more. */
  lemma ReducedStrengthIff(i: EvidenceItem)
    requires ValidTier(i.tier)
    ensures Weight(i) < TierWeight(i.tier) <==> i.quality < 1.0
  {
    var t, c := TierWeight(i.tier), Clamp(i.quality);
    assert t - Mul(c, t) == Mul(1.0 - c, t);
    MulMono(1.0 - c, 1.0 - c, 0.5, t);
  }

  lemma HighQualityIsReducedToo(id: Uuid)
    ensures var i := EvidenceItem(id, true, 0.75, 1);
      i.quality >= 0.5 && Weight(i) == 0.75 < TierWeight(i.tier) && GivenEffective(i) < Blend(0.92, TierWeight(i.tier))
  {
    ReducedStrengthIff(EvidenceItem(id, true, 0.75, 1));
  }

  // ---- One update, and a fold of them ----

  /** What an update divides by. */
  function Total(p: real, h: real, n: real): real {
    h * p + n * (1.0 - p)
  }

  function Update(p: real, h: real, n: real): real {
    if Total(p, h, n) == 0.0 then p else h * p / Total(p, h, n)
  }

  type Likelihood = EvidenceItem -> real

  function Through(h: Likelihood, n: Likelihood, prior: real, items: seq<EvidenceItem>): real {
    if items == [] then prior
    else
      var i := items[|items| - 1];
      Update(Through(h, n, prior, items[..|items| - 1]), h(i), n(i))
  }

  function Fold(prior: real, items: seq<EvidenceItem>): real {
    Through(GivenEffective, GivenIneffective, prior, items)
  }

  method BayesianUpdate(prior: real, items: seq<EvidenceItem>) returns (r: Result<real, ScoreError>)
    ensures r == if 0.0 <= prior <= 1.0 then Ok(Clamp(Fold(prior, items))) else Err(PriorOutOfRange)
  {
    if !(0.0 <= prior <= 1.0) {
      return Err(PriorOutOfRange);
    }
    var posterior := prior;
    for k := 0 to |items|
      invariant posterior == Fold(prior, items[..k])
    {
      assert items[..k + 1][..k] == items[..k];
      posterior := UpdateOnce(posterior, GivenEffective(items[k]), GivenIneffective(items[k]));
    }
    assert items[..|items|] == items;
    r := Ok(Clamp(posterior));
  }

  method UpdateOnce(prior: real, h: real, n: real) returns (posterior: real)
    ensures posterior == Update(prior, h, n)
  {
    posterior := prior;
    var denominator := h * prior + n * (1.0 - prior);
    if denominator != 0.0 {
      posterior := h * prior / denominator;
    }
  }

  // ---- Arithmetic ----

  lemma MulMono(a: real, b: real, c: real, d: real)
    requires 0.0 <= a <= b && 0.0 <= c <= d
    ensures 0.0 <= a * c <= b * d
  {
    assert b * d - a * c == b * (d - c) + (b - a) * c;
  }

  lemma DivLeq(x: real, d: real, x': real, d': real)
    requires d > 0.0 && d' > 0.0 && x * d' <= x' * d
    ensures x / d <= x' / d'
  {
    var q, q' := x / d, x' / d';
    assert q * d == x && q' * d' == x';
    assert (q - q') * (d * d') == x * d' - x' * d;
    assert q > q' ==> (q - q') * (d * d') > 0.0;
  }

  lemma DivScale(x: real, d: real, s: real)
    requires d > 0.0 && s > 0.0
    ensures d * s > 0.0 && x / d == (x * s) / (d * s)
  {
    DivLeq(x, d, x * s, d * s);
    DivLeq(x * s, d * s, x, d);
  }

  /** One update of the belief `a : b` multiplies the odds. */
  lemma UpdateOdds(a: real, b: real, h: real, n: real)
    requires a >= 0.0 && b >= 0.0 && a + b > 0.0 && h > 0.0 && n > 0.0
    ensures a * h + b * n > 0.0
    ensures Update(a / (a + b), h, n) == (a * h) / (a * h + b * n)
  {
    var s := a + b;
    var p := a / s;
    assert p * s == a && (1.0 - p) * s == b;
    assert a * h + b * n > 0.0 by {
      MulMono(0.0, a, 0.0, h);
      MulMono(0.0, b, 0.0, n);
      if a > 0.0 {
        assert a * h > 0.0;
      } else {
        assert b * n > 0.0;
      }
    }
    var d := h * p + n * (1.0 - p);
    assert d * s == h * (p * s) + n * ((1.0 - p) * s);
    assert d <= 0.0 ==> d * s <= 0.0;
    DivScale(h * p, d, s);
    assert (h * p) * s == h * (p * s);
  }

  // ---- The closed form ----

  /** The product of the likelihoods of the items. */
  function Product(f: Likelihood, items: seq<EvidenceItem>): real {
    if items == [] then 1.0 else Mul(Product(f, items[..|items| - 1]), f(items[|items| - 1]))
  }

  /** The share of `prior * h` in `prior * h + (1 - prior) * n`. */
  function Share(prior: real, h: real, n: real): real
    requires 0.0 <= prior <= 1.0 && h > 0.0 && n > 0.0
  {
    OddsPositive(prior, h, n);
    prior * h / (prior * h + (1.0 - prior) * n)
  }

  ghost predicate Positive(f: Likelihood, items: seq<EvidenceItem>) {
    forall i :: i in items ==> f(i) > 0.0
  }

  lemma MulFacts(a: real, b: real, c: real)
    ensures Mul(Mul(a, b), c) == Mul(a, Mul(b, c)) && Mul(Mul(a, b), c) == Mul(Mul(a, c), b) && Mul(a, 1.0) == a
    ensures a > 0.0 && b > 0.0 ==> Mul(a, b) > 0.0
  {
  }

  lemma ShareStep(prior: real, h: real, n: real, h': real, n': real)
    requires 0.0 <= prior <= 1.0 && h > 0.0 && n > 0.0 && h' > 0.0 && n' > 0.0
    ensures Mul(h, h') > 0.0 && Mul(n, n') > 0.0
    ensures Update(Share(prior, h, n), h', n') == Share(prior, Mul(h, h'), Mul(n, n'))
  {
    MulFacts(h, h', 1.0);
    MulFacts(n, n', 1.0);
    OddsPositive(prior, h, n);
    UpdateOdds(prior * h, (1.0 - prior) * n, h', n');
    Assoc(prior, h, h');
    Assoc(1.0 - prior, n, n');
  }

  lemma {:induction false} ThroughIsShare(h: Likelihood, n: Likelihood, prior: real, items: seq<EvidenceItem>)
    requires 0.0 <= prior <= 1.0 && Positive(h, items) && Positive(n, items)
    ensures Product(h, items) > 0.0 && Product(n, items) > 0.0
    ensures Through(h, n, prior, items) == Share(prior, Product(h, items), Product(n, items))
  {
    if items == [] {
      assert Share(prior, 1.0, 1.0) == prior;
    } else {
      var front, i := items[..|items| - 1], items[|items| - 1];
      assert i in items;
      ThroughIsShare(h, n, prior, front);
      ShareStep(prior, Product(h, front), Product(n, front), h(i), n(i));
    }
  }

  lemma OddsPositive(prior: real, h: real, n: real)
    requires 0.0 <= prior <= 1.0 && h > 0.0 && n > 0.0
    ensures prior * h >= 0.0 && (1.0 - prior) * n >= 0.0
    ensures prior * h + (1.0 - prior) * n > 0.0
  {
    MulMono(0.0, prior, 0.0, h);
    MulMono(0.0, 1.0 - prior, 0.0, n);
    if prior > 0.0 {
      assert prior * h > 0.0;
    } else {
      assert (1.0 - prior) * n > 0.0;
    }
  }

  lemma FractionInRange(a: real, b: real)
    requires a >= 0.0 && b >= 0.0 && a + b > 0.0
    ensures 0.0 <= a / (a + b) <= 1.0
  {
    DivLeq(0.0, 1.0, a, a + b);
    DivLeq(a, a + b, 1.0, 1.0);
  }

  lemma LikelihoodsArePositive(items: seq<EvidenceItem>)
    requires AllInformative(items)
    ensures Positive(GivenEffective, items) && Positive(GivenIneffective, items)
  {
    forall i | i in items
      ensures GivenEffective(i) > 0.0 && GivenIneffective(i) > 0.0
    {
      assert Informative(i);
    }
  }

  /** The iterated update is the closed form, meets no zero denominator and needs no clamp. */
  lemma ClosedForm(prior: real, items: seq<EvidenceItem>)
    requires 0.0 <= prior <= 1.0 && AllInformative(items)
    ensures Product(GivenEffective, items) > 0.0 && Product(GivenIneffective, items) > 0.0
    ensures Fold(prior, items) == Share(prior, Product(GivenEffective, items), Product(GivenIneffective, items))
    ensures 0.0 <= Fold(prior, items) <= 1.0 && Clamp(Fold(prior, items)) == Fold(prior, items)
  {
    LikelihoodsArePositive(items);
    ThroughIsShare(GivenEffective, GivenIneffective, prior, items);
    ShareInRange(prior, Product(GivenEffective, items), Product(GivenIneffective, items));
  }

  lemma ShareInRange(prior: real, h: real, n: real)
    requires 0.0 <= prior <= 1.0 && h > 0.0 && n > 0.0
    ensures 0.0 <= Share(prior, h, n) <= 1.0
  {
    OddsPositive(prior, h, n);
    FractionInRange(prior * h, (1.0 - prior) * n);
  }

  lemma Assoc(a: real, b: real, c: real)
    ensures a * (b * c) == (a * b) * c
  {
  }

  /** An item can be moved to the end. */
  lemma {:induction false} ProductWithout(f: Likelihood, s: seq<EvidenceItem>, k: nat)
    requires k < |s|
    ensures Product(f, s) == Mul(Product(f, s[..k] + s[k + 1..]), f(s[k]))
  {
    var n, rest := |s| - 1, s[..k] + s[k + 1..];
    if k == n {
      assert rest == s[..n];
    } else {
      ProductWithout(f, s[..n], k);
      var shorter := s[..n][..k] + s[..n][k + 1..];
      assert rest[..n - 1] == shorter && rest[n - 1] == s[n];
      MulFacts(Product(f, shorter), f(s[k]), f(s[n]));
    }
  }

  lemma {:induction false} ProductOfPermutation(f: Likelihood, a: seq<EvidenceItem>, b: seq<EvidenceItem>)
    requires multiset(a) == multiset(b)
    ensures Product(f, a) == Product(f, b)
  {
    if a == [] {
      assert |multiset(b)| == 0;
    } else {
      var x := a[|a| - 1];
      LastSplits(a);
      SameMembers(a, b);
      assert x in a && x in b;
      var k :| 0 <= k < |b| && b[k] == x;
      WithoutOne(b, k);
      CancelOne(multiset(a[..|a| - 1]), multiset(b[..k] + b[k + 1..]), x);
      ProductOfPermutation(f, a[..|a| - 1], b[..k] + b[k + 1..]);
      ProductWithout(f, b, k);
    }
  }

  lemma ThroughIgnoresOrder(h: Likelihood, n: Likelihood, prior: real, a: seq<EvidenceItem>, b: seq<EvidenceItem>)
    requires 0.0 <= prior <= 1.0 && multiset(a) == multiset(b) && Positive(h, a) && Positive(n, a)
    ensures Through(h, n, prior, a) == Through(h, n, prior, b)
  {
    SameMembers(a, b);
    ThroughIsShare(h, n, prior, a);
    ThroughIsShare(h, n, prior, b);
    ProductOfPermutation(h, a, b);
    ProductOfPermutation(n, a, b);
  }

  /** The order of the evidence does not matter. */
  lemma OrderDoesNotMatter(prior: real, a: seq<EvidenceItem>, b: seq<EvidenceItem>)
    requires 0.0 <= prior <= 1.0 && AllInformative(a) && multiset(a) == multiset(b)
    ensures Fold(prior, a) == Fold(prior, b)
  {
    LikelihoodsArePositive(a);
    ThroughIgnoresOrder(GivenEffective, GivenIneffective, prior, a, b);
  }

  // ---- Monotonicity ----

  /** `x` speaks for effectiveness no more than `y` does: its likelihood ratio is no larger. */
  predicate Weaker(x: EvidenceItem, y: EvidenceItem) {
    RatioLeq(GivenEffective(x), GivenIneffective(x), GivenEffective(y), GivenIneffective(y))
  }

  predicate RatioLeq(h: real, n: real, h': real, n': real) {
    h * n' <= h' * n
  }

  lemma UpdateMonotone(p: real, p': real, h: real, n: real, h': real, n': real)
    requires 0.0 <= p <= p' <= 1.0 && h > 0.0 && n > 0.0 && h' > 0.0 && n' > 0.0
    requires RatioLeq(h, n, h', n')
    ensures 0.0 <= Update(p, h, n) <= Update(p', h', n') <= 1.0
  {
    TotalPositive(p, h, n);
    TotalPositive(p', h', n');
    CrossTerms(p, p', h, n, h', n');
    DivLeq(h * p, Total(p, h, n), h' * p', Total(p', h', n'));
    UpdateInRange(p, h, n);
    UpdateInRange(p', h', n');
  }

  lemma UpdateInRange(p: real, h: real, n: real)
    requires 0.0 <= p <= 1.0 && h > 0.0 && n > 0.0
    ensures 0.0 <= Update(p, h, n) <= 1.0
  {
    TotalPositive(p, h, n);
    MulMono(0.0, h, 0.0, p);
    MulMono(0.0, n, 0.0, 1.0 - p);
    FractionInRange(h * p, n * (1.0 - p));
  }

  lemma TotalPositive(p: real, h: real, n: real)
    requires 0.0 <= p <= 1.0 && h > 0.0 && n > 0.0
    ensures Total(p, h, n) > 0.0
  {
    if p > 0.0 {
      assert h * p > 0.0;
      MulMono(0.0, n, 0.0, 1.0 - p);
    } else {
      assert p == 0.0;
    }
  }

  lemma CrossTerms(p: real, p': real, h: real, n: real, h': real, n': real)
    requires 0.0 <= p <= p' <= 1.0 && h > 0.0 && n > 0.0 && h' > 0.0 && n' > 0.0
    requires h * n' <= h' * n
    ensures (h * p) * Total(p', h', n') <= (h' * p') * Total(p, h, n)
  {
    MulMono(p, p', 1.0 - p', 1.0 - p);
    MulMono(0.0, h, 0.0, n');
    MulMono(h * n', h' * n, p * (1.0 - p'), p' * (1.0 - p));
    Regroup(h, p, n', 1.0 - p');
    Regroup(h', p', n, 1.0 - p);
    Distribute(h * p, h' * p', n' * (1.0 - p'));
    Distribute(h' * p', h * p, n * (1.0 - p));
  }

  lemma Regroup(a: real, b: real, c: real, d: real)
    ensures (a * b) * (c * d) == (a * c) * (b * d)
  {
  }

  lemma Distribute(a: real, b: real, c: real)
    ensures a * (b + c) == a * b + a * c
  {
  }

  lemma {:induction false} ThroughMonotone(h: Likelihood, n: Likelihood, p: real, p': real, a: seq<EvidenceItem>,
                                           b: seq<EvidenceItem>)
    requires 0.0 <= p <= p' <= 1.0 && |a| == |b|
    requires Positive(h, a) && Positive(n, a) && Positive(h, b) && Positive(n, b)
    requires forall k :: 0 <= k < |a| ==> RatioLeq(h(a[k]), n(a[k]), h(b[k]), n(b[k]))
    ensures 0.0 <= Through(h, n, p, a) <= Through(h, n, p', b) <= 1.0
  {
    if a != [] {
      var m := |a| - 1;
      ThroughMonotone(h, n, p, p', a[..m], b[..m]);
      assert a[m] in a && b[m] in b;
      UpdateMonotone(Through(h, n, p, a[..m]), Through(h, n, p', b[..m]), h(a[m]), n(a[m]), h(b[m]), n(b[m]));
    }
  }

  /** The posterior grows with the prior and with the strength of every item. */
  lemma FoldMonotone(p: real, p': real, a: seq<EvidenceItem>, b: seq<EvidenceItem>)
    requires 0.0 <= p <= p' <= 1.0 && AllInformative(a) && AllInformative(b)
    requires |a| == |b| && forall k :: 0 <= k < |a| ==> Weaker(a[k], b[k])
    ensures Fold(p, a) <= Fold(p', b)
  {
    LikelihoodsArePositive(a);
    LikelihoodsArePositive(b);
    ThroughMonotone(GivenEffective, GivenIneffective, p, p', a, b);
  }

  /** What the update with item `i` divides by. */
  function Denominator(p: real, i: EvidenceItem): real {
    Total(p, GivenEffective(i), GivenIneffective(i))
  }

  /** No update of a run meets a zero denominator. */
  lemma NoZeroDenominator(prior: real, items: seq<EvidenceItem>, k: nat)
    requires 0.0 <= prior <= 1.0 && AllInformative(items) && k < |items|
    ensures Denominator(Fold(prior, items[..k]), items[k]) > 0.0
  {
    ClosedForm(prior, items[..k]);
    assert Informative(items[k]);
    TotalPositive(Fold(prior, items[..k]), GivenEffective(items[k]), GivenIneffective(items[k]));
  }

  /** Only informative items keep the denominator positive for every belief. */
  lemma DenominatorPositiveIff(i: EvidenceItem)
    ensures (forall p :: 0.0 <= p <= 1.0 ==> Denominator(p, i) > 0.0) <==> Informative(i)
  {
    forall p | 0.0 <= p <= 1.0
      ensures Informative(i) ==> Denominator(p, i) > 0.0
    {
      if Informative(i) {
        TotalPositive(p, GivenEffective(i), GivenIneffective(i));
      }
    }
    assert Denominator(1.0, i) == GivenEffective(i) && Denominator(0.0, i) == GivenIneffective(i);
  }

  lemma WeakerItself(i: EvidenceItem)
    ensures Weaker(i, i)
  {
  }

  lemma StillInformative(items: seq<EvidenceItem>, k: nat, i: EvidenceItem)
    requires AllInformative(items) && k < |items| && Informative(i)
    ensures AllInformative(items[k := i])
  {
    forall j | j in items[k := i]
      ensures Informative(j)
    {
      assert j in items || j == i;
    }
  }

  /** Better quality of one item raises the posterior if it passes, and lowers it if it fails. */
  lemma QualityMonotone(prior: real, items: seq<EvidenceItem>, k: nat, q: real)
    requires 0.0 <= prior <= 1.0 && AllInformative(items) && k < |items| && items[k].quality <= q
    requires Informative(items[k].(quality := q)) && TierWeight(items[k].tier) >= 0.0
    ensures var better := Fold(prior, items[k := items[k].(quality := q)]);
      if items[k].passes then Fold(prior, items) <= better else better <= Fold(prior, items)
  {
    var others := items[k := items[k].(quality := q)];
    StillInformative(items, k, items[k].(quality := q));
    QualityStrengthens(items[k], q);
    forall j | 0 <= j < |items|
      ensures if items[k].passes then Weaker(items[j], others[j]) else Weaker(others[j], items[j])
    {
      WeakerItself(items[j]);
    }
    if items[k].passes {
      FoldMonotone(prior, prior, items, others);
    } else {
      FoldMonotone(prior, prior, others, items);
    }
  }

  /** Raising the quality of a passing item strengthens it, and of a failing one weakens it. */
  lemma QualityStrengthens(i: EvidenceItem, q: real)
    requires TierWeight(i.tier) >= 0.0 && i.quality <= q
    ensures if i.passes then Weaker(i, i.(quality := q)) else Weaker(i.(quality := q), i)
  {
    ClampGrows(i.quality, q);
    MulMono(Clamp(i.quality), Clamp(q), TierWeight(i.tier), TierWeight(i.tier));
    WeightStrengthens(i, i.(quality := q));
  }

  lemma WeightStrengthens(i: EvidenceItem, j: EvidenceItem)
    requires i.passes == j.passes && Weight(i) <= Weight(j)
    ensures if i.passes then Weaker(i, j) else Weaker(j, i)
  {
    RatioGrows(Weight(i), Weight(j));
  }

  lemma ClampGrows(x: real, y: real)
    requires x <= y
    ensures 0.0 <= Clamp(x) <= Clamp(y) <= 1.0
  {
  }

  lemma RatioGrows(w: real, v: real)
    requires w <= v
    ensures RatioLeq(Blend(0.92, w), Blend(0.15, w), Blend(0.92, v), Blend(0.15, v))
    ensures RatioLeq(Blend(1.0 - 0.92, v), Blend(1.0 - 0.15, v), Blend(1.0 - 0.92, w), Blend(1.0 - 0.15, w))
  {
    var x := w * v;
    assert Blend(0.92, w) * Blend(0.15, v) == 0.25 + 0.21 * w - 0.175 * v - 0.147 * x;
    assert Blend(0.92, v) * Blend(0.15, w) == 0.25 + 0.21 * v - 0.175 * w - 0.147 * x;
    assert Blend(1.0 - 0.92, v) * Blend(1.0 - 0.15, w) == 0.25 - 0.21 * v + 0.175 * w - 0.147 * x;
    assert Blend(1.0 - 0.92, w) * Blend(1.0 - 0.15, v) == 0.25 - 0.21 * w + 0.175 * v - 0.147 * x;
  }

  lemma FlipWeakens(i: EvidenceItem)
    requires Weight(i) >= 0.0 && i.passes
    ensures Weaker(i.(passes := false), i)
  {
    assert Weight(i.(passes := false)) == Weight(i);
    FlippedRatio(Weight(i));
  }

  lemma FlippedRatio(w: real)
    requires w >= 0.0
    ensures RatioLeq(Blend(1.0 - 0.92, w), Blend(1.0 - 0.15, w), Blend(0.92, w), Blend(0.15, w))
  {
    var x := w * w;
    assert Blend(1.0 - 0.92, w) * Blend(0.15, w) == 0.25 - 0.385 * w + 0.147 * x;
    assert Blend(0.92, w) * Blend(1.0 - 0.15, w) == 0.25 + 0.385 * w + 0.147 * x;
  }

  // ---- Scoring ----

  function Failures(items: seq<EvidenceItem>): nat {
    if items == [] then 0 else Failures(items[..|items| - 1]) + if items[|items| - 1].passes then 0 else 1
  }

  function DeviationRate(items: seq<EvidenceItem>): real {
    if items == [] then 0.0 else Failures(items) as real / |items| as real
  }

  datatype RiskScore = RiskScore(posterior: real, confidence: real, conclusion: Conclusion, isMaterial: bool,
                                 tdr: real, deviationRate: real, tdrExceeded: bool, evidenceCount: nat)

  /** The decision constants of an organisation. */
  datatype Thresholds = Thresholds(penaltyRatio: real, materiality: real, tdrMaterial: real, tdrNonMaterial: real)

  const DEFAULTS := Thresholds(PENALTY_RATIO, MATERIALITY_THRESHOLD, TDR_MATERIAL, TDR_NON_MATERIAL)

  function ThresholdEffective(ratio: real): real
    requires ratio != -1.0
  {
    1.0 - 1.0 / (1.0 + ratio)
  }

  function ThresholdPartial(ratio: real): real
    requires ratio != -2.0
  {
    1.0 - 1.0 / (1.0 + ratio / 2.0)
  }

  function Conclude(posterior: real, exceeded: bool, effective: real, partial: real): Conclusion {
    if posterior >= effective && !exceeded then Effective
    else if posterior >= partial && !exceeded then PartiallyEffective
    else NotEffective
  }

  function Min1(x: real): real {
    if x < 1.0 then x else 1.0
  }

  function NoEvidence(prior: real, material: bool, tdr: real): RiskScore {
    RiskScore(prior, 0.0, NotEffective, material, tdr, 0.0, false, 0)
  }

  /** The scorer with its module constants. */
  function ScoreControl(riskWeight: real, prior: real, items: seq<EvidenceItem>): Result<RiskScore, ScoreError> {
    var material := riskWeight >= MATERIALITY_THRESHOLD;
    var tdr := if material then TDR_MATERIAL else TDR_NON_MATERIAL;
    if items == [] then Ok(NoEvidence(prior, material, tdr))
    else if !(0.0 <= prior <= 1.0) then Err(PriorOutOfRange)
    else
      var effective := 1.0 - 1.0 / (1.0 + PENALTY_RATIO);
      var partial := 1.0 - 1.0 / (1.0 + PENALTY_RATIO / 2.0);
      var posterior, rate := Clamp(Fold(prior, items)), DeviationRate(items);
      var exceeded := rate > tdr;
      var conclusion := Conclude(posterior, exceeded, effective, partial);
      var confidence :=
        match conclusion
        case Effective => Min1((posterior - effective) / (1.0 - effective))
        case PartiallyEffective => Min1((posterior - partial) / (effective - partial))
        case NotEffective => Min1((1.0 - posterior) / (1.0 - 0.0));
      Ok(RiskScore(posterior, confidence, conclusion, material, tdr, rate, exceeded, |items|))
  }

  /** The scorer with an organisation's constants. */
  function ScoreWith(riskWeight: real, prior: real, items: seq<EvidenceItem>,
                     org: Thresholds): Result<RiskScore, ScoreError> {
    var material := riskWeight >= org.materiality;
    var tdr := if material then org.tdrMaterial else org.tdrNonMaterial;
    if items == [] then Ok(NoEvidence(prior, material, tdr))
    else if !(0.0 <= prior <= 1.0) then Err(PriorOutOfRange)
    else if org.penaltyRatio == -1.0 || org.penaltyRatio == -2.0 then Err(DivisionByZero)
    else
      var effective, partial := ThresholdEffective(org.penaltyRatio), ThresholdPartial(org.penaltyRatio);
      var posterior, rate := Clamp(Fold(prior, items)), DeviationRate(items);
      var exceeded := rate > tdr;
      var conclusion := Conclude(posterior, exceeded, effective, partial);
      assert 1.0 - effective != 0.0;
      var confidence :=
        match conclusion
        case Effective => Min1((posterior - effective) / (1.0 - effective))
        case PartiallyEffective => Min1((posterior - partial) / (effective - partial))
        case NotEffective => Min1(1.0 - posterior);
      Ok(RiskScore(posterior, confidence, conclusion, material, tdr, rate, exceeded, |items|))
  }

  /** The default organisation thresholds reproduce the scorer. */
  lemma DefaultsReproduceScorer(riskWeight: real, prior: real, items: seq<EvidenceItem>)
    ensures ScoreWith(riskWeight, prior, items, DEFAULTS) == ScoreControl(riskWeight, prior, items)
  {
    assert ThresholdEffective(PENALTY_RATIO) == 1.0 - 1.0 / (1.0 + PENALTY_RATIO);
  }

  lemma ConcludeMonotone(p: real, e: bool, eff: real, par: real, p': real, e': bool, eff': real, par': real)
    requires p' <= p && (e ==> e') && eff <= eff' && par <= par'
    ensures Severity(Conclude(p, e, eff, par)) <= Severity(Conclude(p', e', eff', par'))
  {
  }

  /** Neither threshold has its pole between the two ratios. */
  predicate NoPoleBetween(r: real, s: real) {
    !(r <= -1.0 <= s) && !(r <= -2.0 <= s)
  }

  lemma ThresholdsGrow(r: real, s: real)
    requires r <= s && NoPoleBetween(r, s)
    ensures ThresholdEffective(r) <= ThresholdEffective(s) && ThresholdPartial(r) <= ThresholdPartial(s)
  {
    InverseFalls(1.0 + r, 1.0 + s);
    InverseFalls(1.0 + r / 2.0, 1.0 + s / 2.0);
  }

  lemma InverseFalls(x: real, y: real)
    requires x <= y && (x > 0.0 || y < 0.0)
    ensures 1.0 / y <= 1.0 / x
    ensures x > 0.0 ==> 1.0 / y > 0.0
    ensures y < 0.0 ==> 1.0 / x < 0.0
  {
    if x > 0.0 {
      DivLeq(1.0, y, 1.0, x);
    } else {
      DivLeq(1.0, -x, 1.0, -y);
      assert 1.0 / -x == -(1.0 / x) && 1.0 / -y == -(1.0 / y);
    }
  }

  /** A higher penalty ratio never improves a conclusion, as long as no pole of the threshold
      formulas lies in between; for positive ratios none does. */
  lemma PenaltyNeverHelps(riskWeight: real, prior: real, items: seq<EvidenceItem>, org: Thresholds, ratio: real)
    requires org.penaltyRatio <= ratio && NoPoleBetween(org.penaltyRatio, ratio)
    requires items == [] || 0.0 <= prior <= 1.0
    ensures var a := ScoreWith(riskWeight, prior, items, org);
      var b := ScoreWith(riskWeight, prior, items, org.(penaltyRatio := ratio));
      a.Ok? && b.Ok? && Severity(a.value.conclusion) <= Severity(b.value.conclusion)
  {
    var r := org.penaltyRatio;
    ThresholdsGrow(r, ratio);
    if items != [] {
      var material := riskWeight >= org.materiality;
      var exceeded := DeviationRate(items) > if material then org.tdrMaterial else org.tdrNonMaterial;
      var p := Clamp(Fold(prior, items));
      ConcludeMonotone(p, exceeded, ThresholdEffective(r), ThresholdPartial(r),
                       p, exceeded, ThresholdEffective(ratio), ThresholdPartial(ratio));
    }
  }

  /** Across a pole it does: certain passing evidence then gets the better conclusion. */
  lemma PenaltyHelpsAcrossPole(riskWeight: real, i: EvidenceItem, r: real, ratio: real)
    requires r < ratio && !NoPoleBetween(r, ratio) && Informative(i) && i.passes
    requires r != -1.0 && r != -2.0 && ratio != -1.0 && ratio != -2.0
    ensures var a, b := ScoreWith(riskWeight, 1.0, [i], DEFAULTS.(penaltyRatio := r)),
                        ScoreWith(riskWeight, 1.0, [i], DEFAULTS.(penaltyRatio := ratio));
      a.Ok? && b.Ok? && Severity(b.value.conclusion) < Severity(a.value.conclusion)
  {
    CertainStaysCertain(i);
    if r < -1.0 < ratio {
      InverseFalls(1.0 + r, 1.0 + r);
      InverseFalls(1.0 + ratio, 1.0 + ratio);
      assert ThresholdEffective(r) > 1.0 > ThresholdEffective(ratio);
    } else {
      InverseFalls(1.0 + r / 2.0, 1.0 + r / 2.0);
      InverseFalls(1.0 + ratio / 2.0, 1.0 + ratio / 2.0);
      InverseFalls(1.0 + ratio, 1.0 + ratio);
      InverseFalls(1.0 + r, 1.0 + r);
      assert ThresholdPartial(r) > 1.0 > ThresholdPartial(ratio) && ThresholdEffective(r) > 1.0;
    }
  }

  lemma CertainStaysCertain(i: EvidenceItem)
    requires Informative(i) && i.passes
    ensures Fold(1.0, [i]) == 1.0 && DeviationRate([i]) == 0.0
  {
    var none := [i][..|[i]| - 1];
    assert none == [];
    assert Through(GivenEffective, GivenIneffective, 1.0, none) == 1.0;
    assert Fold(1.0, [i]) == Update(1.0, GivenEffective(i), GivenIneffective(i));
    UpdateOfCertain(GivenEffective(i), GivenIneffective(i));
    assert Failures(none) == 0;
  }

  lemma UpdateOfCertain(h: real, n: real)
    requires h > 0.0
    ensures Update(1.0, h, n) == 1.0
  {
    assert h * 1.0 + n * (1.0 - 1.0) == h;
  }

  /** Confidence is a fraction. */
  lemma ConfidenceIsFraction(riskWeight: real, prior: real, items: seq<EvidenceItem>)
    requires items == [] || 0.0 <= prior <= 1.0
    ensures ScoreControl(riskWeight, prior, items).Ok?
    ensures 0.0 <= ScoreControl(riskWeight, prior, items).value.confidence <= 1.0
  {
    if items != [] {
      var p := Clamp(Fold(prior, items));
      assert 0.0 <= p <= 1.0;
    }
  }

  // ---- Turning a pass into a failure ----

  function Flip(items: seq<EvidenceItem>, k: nat): seq<EvidenceItem>
    requires k < |items|
  {
    items[k := items[k].(passes := false)]
  }

  lemma {:induction false} FlipAddsFailure(items: seq<EvidenceItem>, k: nat)
    requires k < |items| && items[k].passes
    ensures Failures(Flip(items, k)) == Failures(items) + 1
  {
    var n := |items| - 1;
    if k < n {
      FlipAddsFailure(items[..n], k);
      assert Flip(items, k)[..n] == Flip(items[..n], k);
    } else {
      assert Flip(items, k)[..n] == items[..n];
    }
  }

  /** Item `k` passes, counts for something, and is informative passing or failing. */
  ghost predicate Flippable(items: seq<EvidenceItem>, k: nat) {
    && AllInformative(items) && k < |items|
    && items[k].passes && Weight(items[k]) >= 0.0 && Informative(items[k].(passes := false))
  }

  /** Any passing item among items of the documented tiers is. */
  lemma ListedTiersAreFlippable(items: seq<EvidenceItem>, k: nat)
    requires ValidTiers(items) && k < |items| && items[k].passes
    ensures Flippable(items, k)
  {
    ListedTiersAreInformative(items);
    assert items[k] in items;
    InformativeIff(items[k]);
    InformativeIff(items[k].(passes := false));
  }

  /** Turning one passing item into a failing one never improves the conclusion. */
  lemma FlipNeverHelps(riskWeight: real, prior: real, items: seq<EvidenceItem>, k: nat)
    requires 0.0 <= prior <= 1.0 && Flippable(items, k)
    ensures var a, b := ScoreControl(riskWeight, prior, items), ScoreControl(riskWeight, prior, Flip(items, k));
      && a.Ok? && b.Ok?
      && b.value.posterior <= a.value.posterior && a.value.deviationRate < b.value.deviationRate
      && Severity(a.value.conclusion) <= Severity(b.value.conclusion)
  {
    FlipLowersPosterior(prior, items, k);
    FlipAddsFailure(items, k);
    RateGrows(Failures(items), |items|);
  }

  lemma RateGrows(failures: nat, n: nat)
    requires n > 0
    ensures failures as real / n as real < (failures + 1) as real / n as real
  {
  }

  lemma FlipLowersPosterior(prior: real, items: seq<EvidenceItem>, k: nat)
    requires 0.0 <= prior <= 1.0 && Flippable(items, k)
    ensures Fold(prior, Flip(items, k)) <= Fold(prior, items)
  {
    var flipped := Flip(items, k);
    StillInformative(items, k, items[k].(passes := false));
    FlipWeakens(items[k]);
    forall j | 0 <= j < |items|
      ensures Weaker(flipped[j], items[j])
    {
      WeakerItself(items[j]);
    }
    FoldMonotone(prior, prior, flipped, items);
  }
}
