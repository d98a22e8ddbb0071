/** The reasoning pipeline: scope, sampling, scoring, conclusion and evidence chain for one
    control (engine/orchestrator/pipeline.py). */
module Pipeline {
  import opened Common
  import Scope
  import opened ScopeDag
  import opened Sampler
  import opened RiskScorer
  import opened Chain

  datatype EvidenceInput = EvidenceInput(evidenceId: Uuid, content: string, tier: int, quality: real, passes: bool,
                                         metadata: map<string, string>)

  datatype ControlInput = ControlInput(controlId: string, riskWeight: real, prior: real, population: Option<int>)

  datatype Request = Request(control: ControlInput, evidence: seq<EvidenceInput>, confidenceLevel: real,
                             expectedRate: real)

  datatype PipelineError = RiskWeightOutOfRange | Sampling(sample: SampleError) | Scoring(score: ScoreError)

  /** `ratio` is the sufficiency ratio, capped at 1. */
  datatype Outcome = Outcome(requiredSize: int, verdict: Verdict, ratio: real, risk: RiskScore,
                             conclusion: Conclusion, confidence: real)

  // ---- Conclusion assembly ----

  const CONCLUSION_ORDER := [Effective, PartiallyEffective, NotEffective]

  function Downgrade(c: Conclusion, steps: nat): Conclusion {
    var k := Severity(c) + steps;
    CONCLUSION_ORDER[if k < 2 then k else 2]
  }

  function AdjustForSufficiency(c: Conclusion, confidence: real, verdict: Verdict): (Conclusion, real) {
    match verdict
    case Insufficient => (Downgrade(c, 1), confidence * 0.60)
    case Marginal => (c, confidence * 0.80)
    case Sufficient => (c, confidence)
  }

  lemma AdjustKeepsOrder(c: Conclusion, d: Conclusion, x: real, y: real, verdict: Verdict)
    requires Severity(c) <= Severity(d)
    ensures Severity(AdjustForSufficiency(c, x, verdict).0) <= Severity(AdjustForSufficiency(d, y, verdict).0)
    ensures Severity(c) <= Severity(AdjustForSufficiency(c, x, verdict).0)
  {
  }

  // ---- The run as a function ----

  function Tolerable(riskWeight: real): real {
    if riskWeight < 3.5 then 0.10 else 0.05
  }

  function SamplingOf(req: Request): SamplingParameters {
    SamplingParameters(req.confidenceLevel, req.expectedRate, Tolerable(req.control.riskWeight), req.control.population)
  }

  function QualityInputs(evidence: seq<EvidenceInput>): (qs: seq<QualityInput>)
    ensures |qs| == |evidence|
  {
    seq(|evidence|, k requires 0 <= k < |evidence| =>
      QualityInput(evidence[k].evidenceId, evidence[k].tier, evidence[k].quality, evidence[k].passes))
  }

  function RiskInputs(evidence: seq<EvidenceInput>): (items: seq<EvidenceItem>)
    ensures |items| == |evidence|
  {
    seq(|evidence|, k requires 0 <= k < |evidence| =>
      EvidenceItem(evidence[k].evidenceId, evidence[k].passes, evidence[k].quality, evidence[k].tier))
  }

  /** The outcome, or the first error raised on the way. */
  function Evaluate(req: Request): Result<Outcome, PipelineError> {
    if !(0.0 <= req.control.riskWeight <= 5.0) then Err(RiskWeightOutOfRange)
    else
      var size, sum := CochranSampleSize(SamplingOf(req)), WeightedSum(QualityInputs(req.evidence));
      var risk := ScoreControl(req.control.riskWeight, req.control.prior, RiskInputs(req.evidence));
      if size.Err? then Err(Sampling(size.error))
      else if size.value.nFinal <= 0 then Err(Sampling(SampleSizeNotPositive))
      else if sum.Err? then Err(Sampling(sum.error))
      else if risk.Err? then Err(Scoring(risk.error))
      else
        var ratio := sum.value / size.value.nFinal as real;
        var verdict := VerdictOf(ratio);
        var adjusted := AdjustForSufficiency(risk.value.conclusion, risk.value.confidence, verdict);
        Ok(Outcome(size.value.nFinal, verdict, Min1(ratio), risk.value, adjusted.0, adjusted.1))
  }

  /** When a request can be evaluated at all. */
  predicate Evaluable(req: Request) {
    && 0.0 <= req.control.riskWeight <= 5.0
    && ZScore(req.confidenceLevel).Some?
    && 0.0 < req.expectedRate < Tolerable(req.control.riskWeight)
    && (req.control.population.Some? ==> req.control.population.value > 0)
    && (forall e :: e in req.evidence ==> 1 <= e.tier <= 6 && 0.0 <= e.quality <= 1.0)
    && (req.evidence == [] || 0.0 <= req.control.prior <= 1.0)
  }

  lemma SamplePositive(p: SamplingParameters)
    requires CochranSampleSize(p).Ok?
    ensures CochranSampleSize(p).value.nFinal >= 1
  {
    if p.population.Some? {
      FinalInRange(CochranSampleSize(p).value.nInfinite, p.population.value);
    }
  }

  lemma EvidenceScorableIff(evidence: seq<EvidenceInput>)
    ensures WeightedSum(QualityInputs(evidence)).Ok? <==> forall e :: e in evidence ==>
      1 <= e.tier <= 6 && 0.0 <= e.quality <= 1.0
  {
    var qs := QualityInputs(evidence);
    ScorableIff(qs);
    if Scorable(qs) {
      forall e | e in evidence
        ensures 1 <= e.tier <= 6 && 0.0 <= e.quality <= 1.0
      {
        var k :| 0 <= k < |evidence| && evidence[k] == e;
        assert 1 <= qs[k].tier <= 6 && 0.0 <= qs[k].quality <= 1.0;
      }
    }
  }

  /** The pipeline reaches a conclusion exactly on these requests. */
  lemma SucceedsIff(req: Request)
    ensures Evaluate(req).Ok? <==> Evaluable(req)
  {
    EvidenceScorableIff(req.evidence);
    if CochranSampleSize(SamplingOf(req)).Ok? {
      SamplePositive(SamplingOf(req));
    }
  }

  /** The default expected deviation rate of 5% fails every material control, whose
      tolerable rate is 5% too. */
  lemma DefaultRateFailsMaterialControls(req: Request)
    requires req.expectedRate == 0.05 && 3.5 <= req.control.riskWeight
    ensures Evaluate(req).Err?
  {
    SucceedsIff(req);
  }

  // ---- Failing evidence never helps ----

  function FlipEvidence(req: Request, k: nat): Request
    requires k < |req.evidence|
  {
    req.(evidence := req.evidence[k := req.evidence[k].(passes := false)])
  }

  lemma {:induction false} SumIgnoresPasses(a: seq<QualityInput>, b: seq<QualityInput>)
    requires |a| == |b| && forall k :: 0 <= k < |a| ==> a[k].(passes := b[k].passes) == b[k]
    ensures WeightedSum(a) == WeightedSum(b)
  {
    if a != [] {
      var n := |a| - 1;
      SumIgnoresPasses(a[..n], b[..n]);
      assert a[n].(passes := b[n].passes) == b[n];
    }
  }

  /** Turning one passing evidence item into a failing one never improves the final
      conclusion; sample size and sufficiency stay as they are. */
  lemma FailingEvidenceNeverHelps(req: Request, k: nat)
    requires k < |req.evidence| && req.evidence[k].passes
    ensures Evaluate(req).Ok? <==> Evaluate(FlipEvidence(req, k)).Ok?
    ensures Evaluate(req).Ok? ==> var a, b := Evaluate(req).value, Evaluate(FlipEvidence(req, k)).value;
      && Severity(a.conclusion) <= Severity(b.conclusion)
      && a.requiredSize == b.requiredSize && a.verdict == b.verdict && a.ratio == b.ratio
  {
    var flipped := FlipEvidence(req, k);
    SumIgnoresPasses(QualityInputs(req.evidence), QualityInputs(flipped.evidence));
    SucceedsIff(req);
    SucceedsIff(flipped);
    EvidenceScorableIff(req.evidence);
    EvidenceScorableIff(flipped.evidence);
    var items := RiskInputs(req.evidence);
    assert RiskInputs(flipped.evidence) == Flip(items, k);
    if Evaluate(req).Ok? {
      forall i | i in items
        ensures ValidTier(i.tier)
      {
        var j :| 0 <= j < |items| && items[j] == i;
        assert req.evidence[j] in req.evidence;
      }
      ListedTiersAreFlippable(items, k);
      FlipNeverHelps(req.control.riskWeight, req.control.prior, items, k);
      var a, b := Evaluate(req).value, Evaluate(flipped).value;
      AdjustKeepsOrder(a.risk.conclusion, b.risk.conclusion, a.risk.confidence, b.risk.confidence, a.verdict);
    }
  }

  // ---- The working paper ----

  /** What a working paper keeps of a link. */
  datatype Entry = Entry(index: int, evidenceId: Uuid, contentHash: string, timestamp: string, linkHash: string)

  datatype WorkingPaper = WorkingPaper(controlId: string, conclusion: Conclusion, confidencePct: real,
                                       posterior: real, verdict: Verdict, ratio: real, length: nat, tailHash: string,
                                       entries: seq<Entry>, chainValid: bool)

  function EntryOf(l: ChainLink): Entry {
    Entry(l.linkIndex, l.evidenceId, l.contentHash, l.timestamp, l.linkHash)
  }

  ghost predicate IsPaper(paper: WorkingPaper, controlId: string, outcome: Outcome, links: seq<ChainLink>,
                          valid: bool) {
    && paper.controlId == controlId && paper.conclusion == outcome.conclusion
    && paper.confidencePct == outcome.confidence * 100.0
    && paper.posterior == outcome.risk.posterior && paper.verdict == outcome.verdict && paper.ratio == outcome.ratio
    && paper.length == |links| && paper.tailHash == TailOf(links) && paper.chainValid == valid
    && Enters(paper.entries, links)
  }

  predicate Enters(entries: seq<Entry>, links: seq<ChainLink>) {
    |entries| == |links| && forall k :: 0 <= k < |links| ==> entries[k] == EntryOf(links[k])
  }

  method Finalize(controlId: string, outcome: Outcome, chain: EvidenceHashChain) returns (paper: WorkingPaper)
    requires chain.tailHash == TailOf(chain.links)
    ensures IsPaper(paper, controlId, outcome, chain.links, Verifies(chain.linkSha, chain.links))
  {
    var valid := chain.Verify();
    var entries := seq(|chain.links|, k requires 0 <= k < |chain.links| reads chain => EntryOf(chain.links[k]));
    paper := WorkingPaper(controlId, outcome.conclusion, outcome.confidence * 100.0, outcome.risk.posterior,
                          outcome.verdict, outcome.ratio,
                          |chain.links|, chain.tailHash, entries, valid);
  }

  /** A reader can check a chain from its paper alone: any links with the entries of the paper
      verify exactly when the chain does. */
  lemma PaperTellsValidity(sha: Digest, paper: WorkingPaper, controlId: string, outcome: Outcome,
                           links: seq<ChainLink>, rebuilt: seq<ChainLink>)
    requires IsPaper(paper, controlId, outcome, links, Verifies(sha, links))
    requires Enters(paper.entries, rebuilt)
    ensures Verifies(sha, rebuilt) <==> paper.chainValid
    ensures TailOf(rebuilt) == paper.tailHash
  {
    SameEntries(paper.entries, links, rebuilt);
    VerificationSeesHashedFields(sha, links, rebuilt);
  }

  lemma SameEntries(entries: seq<Entry>, a: seq<ChainLink>, b: seq<ChainLink>)
    requires Enters(entries, a) && Enters(entries, b)
    ensures AllSame(a, b) && TailOf(a) == TailOf(b)
  {
    forall k | 0 <= k < |a|
      ensures SameHashed(a[k], b[k])
    {
      assert EntryOf(a[k]) == EntryOf(b[k]);
    }
  }

  // ---- The run ----

  datatype Report = Report(outcome: Outcome, inScope: bool, evidenceCount: nat, chain: EvidenceHashChain,
                           paper: WorkingPaper)

  ghost predicate Documents(links: seq<ChainLink>, evidence: seq<EvidenceInput>, contentSha: string -> string) {
    |links| == |evidence| && forall k :: 0 <= k < |links| ==>
      links[k].evidenceId == evidence[k].evidenceId && links[k].contentHash == contentSha(evidence[k].content)
  }

  /** `nodeId` is the identifier drawn for the scope node, `clocks` the times at which the
      evidence is appended. The control is in scope, the chain documents every evidence item in
      order and verifies, and the working paper reports the outcome and the chain. */
  method Run(req: Request, nodeId: Uuid, clocks: seq<string>, linkSha: Digest, contentSha: string -> string)
    returns (r: Result<Report, PipelineError>)
    requires |clocks| == |req.evidence|
    ensures r.Err? ==> Evaluate(req) == Err(r.error)
    ensures r.Ok? ==> Evaluate(req) == Ok(r.value.outcome) && r.value.inScope && r.value.evidenceCount == |req.evidence|
    ensures r.Ok? ==> r.value.chain.Valid() && Documents(r.value.chain.links, req.evidence, contentSha)
    ensures r.Ok? ==> IsPaper(r.value.paper, req.control.controlId, r.value.outcome, r.value.chain.links, true)
  {
    var ctrl := req.control;
    if !(0.0 <= ctrl.riskWeight <= 5.0) {
      return Err(RiskWeightOutOfRange);
    }
    var inScope := RegisterControl(ctrl, nodeId);
    var sample := CochranSampleSize(SamplingOf(req));
    if sample.Err? {
      return Err(Sampling(sample.error));
    }
    var required := sample.value.nFinal;
    var sufficiency := AssessSufficiency(QualityInputs(req.evidence), required);
    if sufficiency.Err? {
      return Err(Sampling(sufficiency.error));
    }
    var risk := ScoreControl(ctrl.riskWeight, ctrl.prior, RiskInputs(req.evidence));
    if risk.Err? {
      return Err(Scoring(risk.error));
    }
    var adjusted := AdjustForSufficiency(risk.value.conclusion, risk.value.confidence, sufficiency.value.verdict);
    var chain := DocumentEvidence(req.evidence, clocks, linkSha, contentSha);
    var outcome :=
      Outcome(required, sufficiency.value.verdict, sufficiency.value.ratio, risk.value, adjusted.0, adjusted.1);
    var paper := Finalize(ctrl.controlId, outcome, chain);
    r := Ok(Report(outcome, inScope, |req.evidence|, chain, paper));
  }

  /** A fresh document for the control alone; neither step can raise. */
  method RegisterControl(ctrl: ControlInput, nodeId: Uuid) returns (inScope: bool)
    ensures inScope
  {
    var node := new ScopeNode(nodeId, ctrl.controlId, ctrl.riskWeight, [], None, Scope.InScope);
    var dag := new AuditScopeDag();
    var added := dag.Add(node);
    assert added.Ok? && dag.nodes == map[nodeId := node];
    var marked := dag.SetStatus(nodeId, Scope.InScope);
    assert dag.View().nodes[nodeId] == node.View();
    inScope := node.boundaryStatus.InScope?;
  }

  lemma DocumentsNext(links: seq<ChainLink>, link: ChainLink, evidence: seq<EvidenceInput>, k: nat,
                      contentSha: string -> string)
    requires k < |evidence| && Documents(links, evidence[..k], contentSha)
    requires link.evidenceId == evidence[k].evidenceId && link.contentHash == contentSha(evidence[k].content)
    ensures Documents(links + [link], evidence[..k + 1], contentSha)
  {
  }

  method DocumentEvidence(evidence: seq<EvidenceInput>, clocks: seq<string>, linkSha: Digest,
                          contentSha: string -> string)
    returns (chain: EvidenceHashChain)
    requires |clocks| == |evidence|
    ensures fresh(chain) && chain.Valid() && chain.contentSha == contentSha
      && Documents(chain.links, evidence, contentSha)
  {
    chain := new EvidenceHashChain(linkSha, contentSha);
    for k := 0 to |evidence|
      invariant fresh(chain) && chain.Valid() && chain.contentSha == contentSha
      invariant Documents(chain.links, evidence[..k], contentSha)
    {
      ghost var before := chain.links;
      var link := chain.Append(evidence[k].evidenceId, evidence[k].content, evidence[k].metadata, None, clocks[k]);
      DocumentsNext(before, link, evidence, k, contentSha);
    }
    assert evidence[..|evidence|] == evidence;
  }
}
