/** Streaming detection of evidence anomalies (engine/risk/exceptions.py). */
module ExceptionDetection {
  import opened Common
  import opened RiskScorer

  datatype AnomalyType =
    LowQualityPass | HighQualityFail | TierQualityMismatch | QualityDrop | DeviationSpike | InconsistentBatch

  /** `evidenceId` is absent from flags about the stream as a whole. */
  datatype Flag = Flag(kind: AnomalyType, evidenceId: Option<Uuid>)

  function Tdr(material: bool): real {
    if material then TDR_MATERIAL else TDR_NON_MATERIAL
  }

  // ---- What the stream so far amounts to ----

  function QualitySum(s: seq<EvidenceItem>): real {
    if s == [] then 0.0 else QualitySum(s[..|s| - 1]) + s[|s| - 1].quality
  }

  /** At least five items, and a deviation rate above the tolerable one. */
  predicate InBreach(tdr: real, s: seq<EvidenceItem>) {
    |s| >= 5 && DeviationRate(s) > tdr
  }

  function When(condition: bool, kind: AnomalyType, i: EvidenceItem): seq<Flag> {
    if condition then [Flag(kind, Some(i.evidenceId))] else []
  }

  function ItemFlags(n: nat, average: real, i: EvidenceItem): seq<Flag> {
    When(i.passes && i.quality < 0.40, LowQualityPass, i)
    + When(!i.passes && i.quality > 0.80, HighQualityFail, i)
    + When(i.tier == 1 && i.quality < 0.70, TierQualityMismatch, i)
    + When(n >= 3 && average - i.quality > 0.30, QualityDrop, i)
  }

  function Average(s: seq<EvidenceItem>, i: EvidenceItem): real {
    if s == [] then i.quality else QualitySum(s) / |s| as real
  }

  /** The flags raised by `i` after the items `s`. A spike is an entry into breach. */
  function FlagsOf(tdr: real, s: seq<EvidenceItem>, i: EvidenceItem): seq<Flag> {
    ItemFlags(|s|, Average(s, i), i)
    + if InBreach(tdr, s + [i]) && !InBreach(tdr, s) then [Flag(DeviationSpike, None)] else []
  }

  function BatchFlags(s: seq<EvidenceItem>): seq<Flag> {
    if |s| >= 2 && ((forall i :: i in s ==> i.passes) || (forall i :: i in s ==> !i.passes))
    then [Flag(InconsistentBatch, None)] else []
  }

  function StreamFlags(tdr: real, s: seq<EvidenceItem>): seq<Flag> {
    if s == [] then [] else StreamFlags(tdr, s[..|s| - 1]) + FlagsOf(tdr, s[..|s| - 1], s[|s| - 1])
  }

  // ---- The detector ----

  class ExceptionDetector {
    const tdr: real
    var items: seq<EvidenceItem>
    var runningQualitySum: real
    var failureCount: nat
    var deviationSpikeActive: bool

    /** The running state is what recomputing it from the items seen would give. */
    ghost predicate Valid()
      reads this
    {
      && runningQualitySum == QualitySum(items)
      && failureCount == Failures(items)
      && deviationSpikeActive == InBreach(tdr, items)
    }

    constructor (material: bool)
      ensures Valid() && items == [] && tdr == Tdr(material)
    {
      tdr := if material then TDR_MATERIAL else TDR_NON_MATERIAL;
      items, runningQualitySum, failureCount, deviationSpikeActive := [], 0.0, 0, false;
    }

    method Update(item: EvidenceItem) returns (flags: seq<Flag>)
      requires Valid()
      modifies this
      ensures Valid() && items == old(items) + [item]
      ensures flags == FlagsOf(tdr, old(items), item)
    {
      ghost var before := items;
      var q := item.quality;
      var nBefore := |items|;
      var runningAvg := if nBefore > 0 then runningQualitySum / nBefore as real else q;
      items := items + [item];
      assert items[..nBefore] == before;
      if !item.passes {
        failureCount := failureCount + 1;
      }
      flags := PerItemFlags(item, nBefore, runningAvg);
      var rate := failureCount as real / |items| as real;
      if |items| >= 5 && rate > tdr && !deviationSpikeActive {
        deviationSpikeActive := true;
        flags := flags + [Flag(DeviationSpike, None)];
      } else if rate <= tdr {
        deviationSpikeActive := false;
      }
      runningQualitySum := runningQualitySum + q;
    }

    method PerItemFlags(item: EvidenceItem, nBefore: nat, runningAvg: real) returns (flags: seq<Flag>)
      ensures flags == ItemFlags(nBefore, runningAvg, item)
    {
      flags := [];
      if item.passes && item.quality < 0.40 {
        flags := flags + [Flag(LowQualityPass, Some(item.evidenceId))];
      }
      if !item.passes && item.quality > 0.80 {
        flags := flags + [Flag(HighQualityFail, Some(item.evidenceId))];
      }
      if item.tier == 1 && item.quality < 0.70 {
        flags := flags + [Flag(TierQualityMismatch, Some(item.evidenceId))];
      }
      if nBefore >= 3 && runningAvg - item.quality > 0.30 {
        flags := flags + [Flag(QualityDrop, Some(item.evidenceId))];
      }
    }

    method Finalize() returns (flags: seq<Flag>)
      ensures flags == BatchFlags(items)
    {
      flags := [];
      if |items| < 2 {
        return;
      }
      var allPass, allFail := true, true;
      for k := 0 to |items|
        invariant allPass <==> forall i :: i in items[..k] ==> i.passes
        invariant allFail <==> forall i :: i in items[..k] ==> !i.passes
      {
        assert items[..k + 1] == items[..k] + [items[k]];
        allPass := allPass && items[k].passes;
        allFail := allFail && !items[k].passes;
      }
      assert items[..|items|] == items;
      if allPass || allFail {
        flags := [Flag(InconsistentBatch, None)];
      }
    }
  }

  /** Feeding the items one by one and finalising. */
  method DetectExceptions(evidence: seq<EvidenceItem>, material: bool) returns (flags: seq<Flag>)
    ensures flags == StreamFlags(Tdr(material), evidence) + BatchFlags(evidence)
  {
    var detector := new ExceptionDetector(material);
    flags := [];
    for k := 0 to |evidence|
      invariant fresh(detector) && detector.Valid() && detector.items == evidence[..k]
      invariant flags == StreamFlags(Tdr(material), evidence[..k])
    {
      assert evidence[..k + 1][..k] == evidence[..k];
      var more := detector.Update(evidence[k]);
      flags := flags + more;
    }
    assert evidence[..|evidence|] == evidence;
    var batch := detector.Finalize();
    flags := flags + batch;
  }

  // ---- Spikes ----

  /** A spike is raised by item `k` (counted from 1) of the stream. */
  predicate SpikesAt(tdr: real, s: seq<EvidenceItem>, k: nat)
    requires 0 < k <= |s|
  {
    Flag(DeviationSpike, None) in FlagsOf(tdr, s[..k - 1], s[k - 1])
  }

  lemma SpikesAtIff(tdr: real, s: seq<EvidenceItem>, k: nat)
    requires 0 < k <= |s|
    ensures SpikesAt(tdr, s, k) <==> InBreach(tdr, s[..k]) && !InBreach(tdr, s[..k - 1])
  {
    assert s[..k - 1] + [s[k - 1]] == s[..k];
  }

  /** A breach at `k` is announced by a spike no later than `k`, after the last calm prefix. */
  lemma {:induction false} BreachHasSpike(tdr: real, s: seq<EvidenceItem>, k: nat) returns (j: nat)
    requires k <= |s| && InBreach(tdr, s[..k])
    ensures 0 < j <= k && SpikesAt(tdr, s, j)
    ensures forall m :: j <= m <= k ==> InBreach(tdr, s[..m])
  {
    SpikesAtIff(tdr, s, k);
    if InBreach(tdr, s[..k - 1]) {
      j := BreachHasSpike(tdr, s, k - 1);
    } else {
      j := k;
    }
  }

  /** A stream raises a spike exactly when some prefix of five or more items breaches. */
  lemma SpikeIffBreach(tdr: real, s: seq<EvidenceItem>)
    ensures (exists k :: 0 < k <= |s| && SpikesAt(tdr, s, k)) <==>
      exists k :: 5 <= k <= |s| && DeviationRate(s[..k]) > tdr
  {
    if k :| 0 < k <= |s| && SpikesAt(tdr, s, k) {
      SpikesAtIff(tdr, s, k);
      assert DeviationRate(s[..k]) > tdr;
    }
    if k :| 5 <= k <= |s| && DeviationRate(s[..k]) > tdr {
      var j := BreachHasSpike(tdr, s, k);
    }
  }

  /** Between two spikes the rate comes back to the tolerable one. */
  lemma SpikesAreSeparated(tdr: real, s: seq<EvidenceItem>, i: nat, j: nat)
    requires 0 < i < j <= |s| && SpikesAt(tdr, s, i) && SpikesAt(tdr, s, j)
    ensures exists m :: i < m < j && DeviationRate(s[..m]) <= tdr
  {
    SpikesAtIff(tdr, s, i);
    SpikesAtIff(tdr, s, j);
    assert |s[..j - 1]| >= 5 && DeviationRate(s[..j - 1]) <= tdr;
  }
}
