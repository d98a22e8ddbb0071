/** Work program generation: greedy coverage under an hours budget (engine/economy/work_program.py). */
module WorkProgram {
  import opened Common
  import opened Ordering
  import opened Graphs
  import opened Scope
  import opened ScopeDag

  /** A control as the caller describes it; an absent risk weight counts as 1. */
  datatype Control = Control(controlId: string, riskWeight: Option<real>, evidenceRequired: Option<seq<string>>)

  datatype WorkItem = WorkItem(itemId: Uuid, controlId: string, estimatedHours: real, riskWeight: real,
                               evidenceRequired: seq<string>)

  function EstimateHours(riskWeight: real): real {
    var h := Ceil(riskWeight * 4.0) as real;
    if h > 2.0 then h else 2.0
  }

  function ItemOf(c: Control, id: Uuid): WorkItem {
    var w := if c.riskWeight.Some? then c.riskWeight.value else 1.0;
    var evidence := if c.evidenceRequired.Some? then c.evidenceRequired.value else ["documentation"];
    WorkItem(id, c.controlId, EstimateHours(w), w, evidence)
  }

  predicate Costed(i: WorkItem) {
    i.estimatedHours == EstimateHours(i.riskWeight)
  }

  function Candidates(controls: seq<Control>, ids: seq<Uuid>): (items: seq<WorkItem>)
    requires |ids| == |controls|
  {
    seq(|controls|, k requires 0 <= k < |controls| => ItemOf(controls[k], ids[k]))
  }

  // ---- Orders ----

  function Efficiency(i: WorkItem): real {
    if i.estimatedHours > 0.0 then i.riskWeight / i.estimatedHours else 0.0
  }

  predicate EfficiencyLeq(x: WorkItem, y: WorkItem) {
    KeyLeq((Efficiency(x), x.controlId), (Efficiency(y), y.controlId))
  }

  /** `not (y < x)` for the item order: heavier risk first, then control id. */
  predicate RiskLeq(x: WorkItem, y: WorkItem) {
    KeyLeq((x.riskWeight, x.controlId), (y.riskWeight, y.controlId))
  }

  lemma OrdersAreTotal()
    ensures TotalPreorder(EfficiencyLeq) && TotalPreorder(RiskLeq)
  {
    forall x, y, z
      ensures EfficiencyLeq(x, y) || EfficiencyLeq(y, x)
      ensures EfficiencyLeq(x, y) && EfficiencyLeq(y, z) ==> EfficiencyLeq(x, z)
      ensures RiskLeq(x, y) || RiskLeq(y, x)
      ensures RiskLeq(x, y) && RiskLeq(y, z) ==> RiskLeq(x, z)
    {
      KeyLeqOrders((Efficiency(x), x.controlId), (Efficiency(y), y.controlId), (Efficiency(z), z.controlId));
      KeyLeqOrders((x.riskWeight, x.controlId), (y.riskWeight, y.controlId), (z.riskWeight, z.controlId));
    }
  }

  function Ranked(controls: seq<Control>, ids: seq<Uuid>): seq<WorkItem>
    requires |ids| == |controls|
  {
    Sort(EfficiencyLeq, Candidates(controls, ids))
  }

  // ---- Greedy selection ----

  function Hours(items: seq<WorkItem>): real {
    if items == [] then 0.0 else Hours(items[..|items| - 1]) + items[|items| - 1].estimatedHours
  }

  function Risk(items: seq<WorkItem>): real {
    if items == [] then 0.0 else Risk(items[..|items| - 1]) + items[|items| - 1].riskWeight
  }

  /** The items taken from `items`, in order, when one that does not fit is skipped. */
  function Picked(items: seq<WorkItem>, budget: real): seq<WorkItem> {
    if items == [] then []
    else
      var before := Picked(items[..|items| - 1], budget);
      if Hours(before) + items[|items| - 1].estimatedHours <= budget then before + [items[|items| - 1]] else before
  }

  function Rejected(items: seq<WorkItem>, budget: real): seq<WorkItem> {
    if items == [] then []
    else
      var front, last := items[..|items| - 1], items[|items| - 1];
      if Hours(Picked(front, budget)) + last.estimatedHours <= budget then Rejected(front, budget)
      else Rejected(front, budget) + [last]
  }

  /** The items of a program, in their final order. */
  function Program(controls: seq<Control>, ids: seq<Uuid>, budget: real): seq<WorkItem>
    requires |ids| == |controls|
  {
    Sort(RiskLeq, Picked(Ranked(controls, ids), budget))
  }

  class WorkProgram {
    var items: seq<WorkItem>
    var totalEstimatedHours: real
    var coverageScore: real

    constructor ()
      ensures items == [] && totalEstimatedHours == 0.0 && coverageScore == 0.0
    {
      items, totalEstimatedHours, coverageScore := [], 0.0, 0.0;
    }

    method AddItem(item: WorkItem)
      modifies this
      ensures items == old(items) + [item] && totalEstimatedHours == old(totalEstimatedHours) + item.estimatedHours
      ensures coverageScore == old(coverageScore)
    {
      items := items + [item];
      totalEstimatedHours := totalEstimatedHours + item.estimatedHours;
    }
  }

  /** Items, hours and coverage are those of the greedy selection. */
  ghost predicate IsProgramOf(program: WorkProgram, controls: seq<Control>, ids: seq<Uuid>, budget: real)
    requires |ids| == |controls|
    reads program
  {
    var all, picked := Candidates(controls, ids), Picked(Ranked(controls, ids), budget);
    && program.items == Program(controls, ids, budget)
    && program.totalEstimatedHours == Hours(picked)
    && program.coverageScore == (if Risk(all) > 0.0 then Risk(picked) / Risk(all) else 0.0)
  }

  /** `ids` are the fresh identifiers drawn for the items. */
  method GenerateWorkProgram(controls: seq<Control>, budget: real, ids: seq<Uuid>) returns (program: WorkProgram)
    requires |ids| == |controls|
    ensures fresh(program) && IsProgramOf(program, controls, ids, budget)
  {
    program := new WorkProgram();
    if controls == [] {
      return;
    }
    var candidates, totalRisk := BuildCandidates(controls, ids);
    var coveredRisk := SelectGreedily(program, Sort(EfficiencyLeq, candidates), budget);
    program.coverageScore := if totalRisk > 0.0 then coveredRisk / totalRisk else 0.0;
    program.items := Sort(RiskLeq, program.items);
  }

  method BuildCandidates(controls: seq<Control>, ids: seq<Uuid>) returns (candidates: seq<WorkItem>, totalRisk: real)
    requires |ids| == |controls|
    ensures candidates == Candidates(controls, ids) && totalRisk == Risk(candidates)
  {
    candidates, totalRisk := [], 0.0;
    for k := 0 to |controls|
      invariant candidates == Candidates(controls, ids)[..k] && totalRisk == Risk(candidates)
    {
      ghost var before := candidates;
      candidates := candidates + [ItemOf(controls[k], ids[k])];
      assert candidates[..k] == before;
      totalRisk := totalRisk + candidates[k].riskWeight;
    }
  }

  lemma PickedNext(items: seq<WorkItem>, k: nat, budget: real)
    requires k < |items|
    ensures var before := Picked(items[..k], budget);
      Picked(items[..k + 1], budget) ==
        if Hours(before) + items[k].estimatedHours <= budget then before + [items[k]] else before
  {
    assert items[..k + 1][..k] == items[..k];
  }

  lemma SumsNext(items: seq<WorkItem>, i: WorkItem)
    ensures Hours(items + [i]) == Hours(items) + i.estimatedHours && Risk(items + [i]) == Risk(items) + i.riskWeight
  {
    assert (items + [i])[..|items|] == items;
  }

  method SelectGreedily(program: WorkProgram, ranked: seq<WorkItem>, budget: real) returns (coveredRisk: real)
    requires program.items == [] && program.totalEstimatedHours == 0.0
    modifies program
    ensures program.items == Picked(ranked, budget)
    ensures program.totalEstimatedHours == Hours(program.items) && coveredRisk == Risk(program.items)
    ensures program.coverageScore == old(program.coverageScore)
  {
    coveredRisk := 0.0;
    for k := 0 to |ranked|
      invariant program.items == Picked(ranked[..k], budget) && program.coverageScore == old(program.coverageScore)
      invariant program.totalEstimatedHours == Hours(program.items) && coveredRisk == Risk(program.items)
    {
      var item := ranked[k];
      PickedNext(ranked, k, budget);
      if program.totalEstimatedHours + item.estimatedHours <= budget {
        SumsNext(program.items, item);
        program.AddItem(item);
        coveredRisk := coveredRisk + item.riskWeight;
      }
    }
    assert ranked[..|ranked|] == ranked;
  }

  // ---- Sums ----

  lemma {:induction false} SumsSplit(a: seq<WorkItem>, b: seq<WorkItem>)
    ensures Hours(a + b) == Hours(a) + Hours(b) && Risk(a + b) == Risk(a) + Risk(b)
  {
    if b == [] {
      assert a + b == a;
    } else {
      SumsSplit(a, b[..|b| - 1]);
      assert (a + b)[..|a + b| - 1] == a + b[..|b| - 1];
    }
  }

  lemma {:induction false} SumsWithout(a: seq<WorkItem>, k: nat)
    requires k < |a|
    ensures Hours(a) == Hours(a[..k] + a[k + 1..]) + a[k].estimatedHours
    ensures Risk(a) == Risk(a[..k] + a[k + 1..]) + a[k].riskWeight
  {
    var n, rest := |a| - 1, a[..k] + a[k + 1..];
    if k == n {
      assert rest == a[..n];
    } else {
      SumsWithout(a[..n], k);
      assert rest[..n - 1] == a[..n][..k] + a[..n][k + 1..] && rest[n - 1] == a[n];
    }
  }

  /** Sums do not depend on order. */
  lemma {:induction false} SumsOfPermutation(a: seq<WorkItem>, b: seq<WorkItem>)
    requires multiset(a) == multiset(b)
    ensures Hours(a) == Hours(b) && Risk(a) == Risk(b)
  {
    if a == [] {
      assert |multiset(b)| == 0;
    } else {
      LastSplits(a);
      SameMembers(a, b);
      var x := a[|a| - 1];
      assert x in a && x in b;
      var k :| 0 <= k < |b| && b[k] == x;
      WithoutOne(b, k);
      SumsWithout(b, k);
      CancelOne(multiset(a[..|a| - 1]), multiset(b[..k] + b[k + 1..]), x);
      SumsOfPermutation(a[..|a| - 1], b[..k] + b[k + 1..]);
    }
  }

  // ---- Budget, rejection, coverage ----

  predicate AllCosted(items: seq<WorkItem>) {
    forall i :: i in items ==> Costed(i)
  }

  /** Selection stays within the budget, or takes nothing. */
  lemma {:induction false} SelectionFits(items: seq<WorkItem>, budget: real)
    ensures Picked(items, budget) == [] || Hours(Picked(items, budget)) <= budget
  {
    if items != [] {
      var front, last := items[..|items| - 1], items[|items| - 1];
      SelectionFits(front, budget);
      SumsNext(Picked(front, budget), last);
    }
  }

  /** The items split into picked and rejected. */
  lemma {:induction false} SelectionSplits(items: seq<WorkItem>, budget: real)
    ensures multiset(items) == multiset(Picked(items, budget)) + multiset(Rejected(items, budget))
  {
    if items != [] {
      SelectionSplits(items[..|items| - 1], budget);
      LastSplits(items);
    }
  }

  /** No rejected item fits the hours that remain. */
  lemma {:induction false} RejectedDoNotFit(items: seq<WorkItem>, budget: real, r: WorkItem)
    requires r in Rejected(items, budget) && forall i :: i in items ==> i.estimatedHours >= 0.0
    ensures Hours(Picked(items, budget)) + r.estimatedHours > budget
  {
    var front, last := items[..|items| - 1], items[|items| - 1];
    assert last in items;
    SumsNext(Picked(front, budget), last);
    if r in Rejected(front, budget) {
      RejectedDoNotFit(front, budget, r);
    }
  }

  lemma RankedIsPermutation(controls: seq<Control>, ids: seq<Uuid>)
    requires |ids| == |controls|
    ensures multiset(Ranked(controls, ids)) == multiset(Candidates(controls, ids))
    ensures Sorted(EfficiencyLeq, Ranked(controls, ids)) && AllCosted(Ranked(controls, ids))
  {
    OrdersAreTotal();
    SortIsSortedPermutation(EfficiencyLeq, Candidates(controls, ids));
    CandidatesAreCosted(controls, ids);
    SameMembers(Ranked(controls, ids), Candidates(controls, ids));
  }

  lemma CandidatesAreCosted(controls: seq<Control>, ids: seq<Uuid>)
    requires |ids| == |controls|
    ensures AllCosted(Candidates(controls, ids))
  {
  }

  /** What holds of every program: it keeps the budget unless it is empty, its items and the
      rejected ones are the candidates, and no rejected control could still be audited. */
  lemma SelectionFacts(controls: seq<Control>, ids: seq<Uuid>, budget: real)
    requires |ids| == |controls|
    ensures var picked, rejected := Picked(Ranked(controls, ids), budget), Rejected(Ranked(controls, ids), budget);
      && (picked == [] || Hours(picked) <= budget)
      && multiset(Candidates(controls, ids)) == multiset(picked) + multiset(rejected)
      && forall r :: r in rejected ==> Hours(picked) + r.estimatedHours > budget
  {
    var ranked := Ranked(controls, ids);
    RankedIsPermutation(controls, ids);
    SelectionFits(ranked, budget);
    SelectionSplits(ranked, budget);
    forall i | i in ranked
      ensures i.estimatedHours >= 0.0
    {
      assert Costed(i);
    }
    forall r | r in Rejected(ranked, budget)
      ensures Hours(Picked(ranked, budget)) + r.estimatedHours > budget
    {
      RejectedDoNotFit(ranked, budget, r);
    }
  }

  /** What coverage misses is the risk of the rejected items: it is complete when there are none. */
  lemma CoverageSplits(controls: seq<Control>, ids: seq<Uuid>, budget: real)
    requires |ids| == |controls|
    ensures var picked, rejected := Picked(Ranked(controls, ids), budget), Rejected(Ranked(controls, ids), budget);
      Risk(Candidates(controls, ids)) == Risk(picked) + Risk(rejected)
  {
    var picked, rejected := Picked(Ranked(controls, ids), budget), Rejected(Ranked(controls, ids), budget);
    SelectionFacts(controls, ids, budget);
    SumsOfPermutation(picked + rejected, Candidates(controls, ids));
    SumsSplit(picked, rejected);
  }

  // ---- The approximation bound ----

  /** What an item gains over a price of `e` per hour. */
  function Margin(e: real, i: WorkItem): real {
    Net(e, i.riskWeight, i.estimatedHours)
  }

  function Net(e: real, risk: real, hours: real): real {
    risk - e * hours
  }

  function Margins(e: real, items: seq<WorkItem>): real {
    if items == [] then 0.0 else Margins(e, items[..|items| - 1]) + Margin(e, items[|items| - 1])
  }

  lemma {:induction false} MarginsSum(e: real, items: seq<WorkItem>)
    ensures Margins(e, items) == Net(e, Risk(items), Hours(items))
  {
    if items != [] {
      MarginsSum(e, items[..|items| - 1]);
    }
  }

  lemma {:induction false} MarginsWithout(e: real, a: seq<WorkItem>, k: nat)
    requires k < |a|
    ensures Margins(e, a) == Margins(e, a[..k] + a[k + 1..]) + Margin(e, a[k])
  {
    var n, rest := |a| - 1, a[..k] + a[k + 1..];
    if k == n {
      assert rest == a[..n];
    } else {
      MarginsWithout(e, a[..n], k);
      assert rest[..n - 1] == a[..n][..k] + a[..n][k + 1..] && rest[n - 1] == a[n];
    }
  }

  /** Among the sub-collections of `p + q`, `p` has the largest margin at a price at which
      its items gain and those of `q` lose. */
  lemma {:induction false} BestAtRate(e: real, pick: seq<WorkItem>, p: seq<WorkItem>, q: seq<WorkItem>)
    requires multiset(pick) <= multiset(p + q)
    requires forall i :: i in p ==> Margin(e, i) >= 0.0
    requires forall i :: i in q ==> Margin(e, i) <= 0.0
    ensures Margins(e, pick) <= Margins(e, p)
    decreases |pick|, |p|
  {
    if pick == [] {
      if p != [] {
        BestAtRate(e, pick, p[..|p| - 1], q);
        assert p[|p| - 1] in p;
      }
    } else {
      var x, rest := pick[|pick| - 1], pick[..|pick| - 1];
      LastSplits(pick);
      assert x in multiset(p + q);
      if x in p {
        var p' := TakeOut(e, rest, x, p, q);
        BestAtRate(e, rest, p', q);
      } else {
        assert multiset(p + q) == multiset(q + p);
        var q' := TakeOut(e, rest, x, q, p);
        assert multiset(p + q') == multiset(q' + p);
        BestAtRate(e, rest, p, q');
      }
    }
  }

  lemma TakeOut(e: real, rest: seq<WorkItem>, x: WorkItem, p: seq<WorkItem>, q: seq<WorkItem>)
    returns (p': seq<WorkItem>)
    requires x in p && multiset(rest) + multiset{x} <= multiset(p + q)
    ensures multiset(rest) <= multiset(p' + q) && Margins(e, p) == Margins(e, p') + Margin(e, x)
    ensures forall i :: i in p' ==> i in p
  {
    var k :| 0 <= k < |p| && p[k] == x;
    p' := p[..k] + p[k + 1..];
    WithoutOne(p, k);
    MarginsWithout(e, p, k);
    assert multiset(p + q) == multiset(p' + q) + multiset{x};
    CancelOne(multiset(rest), multiset(p' + q), x);
  }

  /** The risk covered, items of negative weight aside. */
  function Gain(items: seq<WorkItem>): real {
    if items == [] then 0.0
    else
      var w := items[|items| - 1].riskWeight;
      Gain(items[..|items| - 1]) + if w > 0.0 then w else 0.0
  }

  lemma {:induction false} GainIsRisk(items: seq<WorkItem>)
    requires forall i :: i in items ==> i.riskWeight >= 0.0
    ensures Gain(items) == Risk(items)
  {
    if items != [] {
      GainIsRisk(items[..|items| - 1]);
      assert items[|items| - 1] in items;
    }
  }

  lemma GainNext(items: seq<WorkItem>, i: WorkItem)
    ensures Gain(items + [i]) >= Gain(items)
  {
    assert (items + [i])[..|items|] == items;
  }

  lemma {:induction false} GainGrows(items: seq<WorkItem>, budget: real, k: nat)
    requires k <= |items|
    ensures Gain(Picked(items[..k], budget)) <= Gain(Picked(items, budget))
    decreases |items|
  {
    if k == |items| {
      assert items[..k] == items;
    } else {
      var front := items[..|items| - 1];
      GainGrows(front, budget, k);
      assert front[..k] == items[..k];
      GainNext(Picked(front, budget), items[|items| - 1]);
    }
  }

  lemma EfficiencyBounds(x: WorkItem, y: WorkItem)
    requires Costed(x) && Costed(y) && EfficiencyLeq(x, y)
    ensures Margin(Efficiency(y), x) >= 0.0
    ensures Margin(Efficiency(x), y) <= 0.0
  {
    EfficiencyTimesHours(x);
    EfficiencyTimesHours(y);
    RateGap(x.estimatedHours, Efficiency(y), Efficiency(x), 0.0);
    RateGap(y.estimatedHours, Efficiency(y), Efficiency(x), 0.0);
  }

  /** Around position `k` of a ranking, items gain at the rate of item `k` before it, and
      lose from it on. */
  lemma RatesAroundPivot(ranked: seq<WorkItem>, k: nat) returns (e: real)
    requires Sorted(EfficiencyLeq, ranked) && AllCosted(ranked) && k < |ranked|
    ensures Margin(e, ranked[k]) == 0.0
    ensures ranked[k].riskWeight >= 0.0 ==> e >= 0.0
    ensures forall i :: i in ranked[..k] ==> Margin(e, i) >= 0.0
    ensures forall i :: i in ranked[k..] ==> Margin(e, i) <= 0.0
  {
    var r := ranked[k];
    e := Efficiency(r);
    EfficiencyTimesHours(r);
    forall j | 0 <= j < |ranked|
      ensures j < k ==> Margin(e, ranked[j]) >= 0.0
      ensures j >= k ==> Margin(e, ranked[j]) <= 0.0
    {
      assert Costed(r) && Costed(ranked[j]);
      KeyLeqOrders((Efficiency(r), r.controlId), (Efficiency(r), r.controlId), (Efficiency(r), r.controlId));
      if j < k {
        EfficiencyBounds(ranked[j], r);
      } else {
        EfficiencyBounds(r, ranked[j]);
      }
    }
  }

  lemma BoundAtPivot(p: seq<WorkItem>, q: seq<WorkItem>, budget: real, pick: seq<WorkItem>, e: real, r: WorkItem)
    requires forall i :: i in p ==> Margin(e, i) >= 0.0
    requires forall i :: i in q ==> Margin(e, i) <= 0.0
    requires e >= 0.0 && Margin(e, r) == 0.0 && Hours(p) + r.estimatedHours > budget
    requires multiset(pick) <= multiset(p + q) && Hours(pick) <= budget
    ensures Risk(pick) <= Risk(p) + r.riskWeight
  {
    BestAtRate(e, pick, p, q);
    MarginTrade(e, pick, p, r);
  }

  lemma MarginTrade(e: real, pick: seq<WorkItem>, p: seq<WorkItem>, r: WorkItem)
    requires Margins(e, pick) <= Margins(e, p)
    requires e >= 0.0 && Margin(e, r) == 0.0 && Hours(pick) <= Hours(p) + r.estimatedHours
    ensures Risk(pick) <= Risk(p) + r.riskWeight
  {
    MarginsSum(e, pick);
    MarginsSum(e, p);
    Trade(e, Hours(pick), Hours(p), r.estimatedHours, Risk(pick), Risk(p), r.riskWeight);
  }

  lemma Trade(e: real, a: real, b: real, h: real, risk: real, risk': real, w: real)
    requires e >= 0.0 && a <= b + h
    requires Net(e, risk, a) <= Net(e, risk', b) && Net(e, w, h) == 0.0
    ensures risk <= risk' + w
  {
    RateGap(e, a, b, h);
  }

  lemma EfficiencyTimesHours(x: WorkItem)
    requires Costed(x)
    ensures Efficiency(x) * x.estimatedHours == x.riskWeight
    ensures x.riskWeight >= 0.0 ==> Efficiency(x) >= 0.0
  {
  }

  /** A ranking lists the items that cover risk before those of negative weight. */
  lemma {:induction false} GainsComeFirst(ranked: seq<WorkItem>) returns (j: nat)
    requires Sorted(EfficiencyLeq, ranked) && AllCosted(ranked)
    ensures j <= |ranked|
    ensures forall i :: i in ranked[..j] ==> i.riskWeight >= 0.0
    ensures forall i :: i in ranked[j..] ==> i.riskWeight < 0.0
  {
    j := |ranked|;
    if ranked != [] {
      var n := |ranked| - 1;
      if ranked[n].riskWeight < 0.0 {
        j := GainsComeFirst(ranked[..n]);
        assert ranked[..n][..j] == ranked[..j] && ranked[j..] == ranked[..n][j..] + [ranked[n]];
      } else {
        forall i | 0 <= i < n
          ensures ranked[i].riskWeight >= 0.0
        {
          assert Costed(ranked[i]) && Costed(ranked[n]);
          AheadOfGain(ranked[i], ranked[n]);
        }
      }
    }
  }

  lemma AheadOfGain(x: WorkItem, y: WorkItem)
    requires Costed(x) && Costed(y) && EfficiencyLeq(x, y) && y.riskWeight >= 0.0
    ensures x.riskWeight >= 0.0
  {
    EfficiencyTimesHours(x);
    EfficiencyTimesHours(y);
    RateGap(x.estimatedHours, 0.0, Efficiency(x), 0.0);
  }

  /** No selection that fits the budget covers more risk than the greedy one, items of negative
      weight aside, plus the first item it rejects. */
  lemma GreedyBound(controls: seq<Control>, ids: seq<Uuid>, budget: real, pick: seq<WorkItem>) returns (k: nat)
    requires |ids| == |controls| && Rejected(Ranked(controls, ids), budget) != []
    requires multiset(pick) <= multiset(Candidates(controls, ids)) && Hours(pick) <= budget
    ensures var ranked := Ranked(controls, ids);
      && k < |ranked|
      && Picked(ranked[..k], budget) == ranked[..k]
      && Hours(ranked[..k]) + ranked[k].estimatedHours > budget
      && Risk(pick) <= Gain(Picked(ranked, budget)) + Gain([ranked[k]])
      && ((forall i :: i in ranked ==> i.riskWeight >= 0.0) ==>
        Risk(pick) <= Risk(Picked(ranked, budget)) + ranked[k].riskWeight)
  {
    var ranked := Ranked(controls, ids);
    RankedIsPermutation(controls, ids);
    k := FirstRejection(ranked, budget);
    if ranked[k].riskWeight >= 0.0 {
      BoundAtGain(ranked, budget, pick, k);
    } else {
      BoundAtLoss(ranked, budget, pick, k);
    }
    if forall i :: i in ranked ==> i.riskWeight >= 0.0 {
      PickedAreItems(ranked, budget);
      GainIsRisk(Picked(ranked, budget));
      GainIsRisk([ranked[k]]);
      assert [ranked[k]][..0] == [];
    }
  }

  lemma BoundAtGain(ranked: seq<WorkItem>, budget: real, pick: seq<WorkItem>, k: nat)
    requires Sorted(EfficiencyLeq, ranked) && AllCosted(ranked) && k < |ranked| && ranked[k].riskWeight >= 0.0
    requires Picked(ranked[..k], budget) == ranked[..k] && Hours(ranked[..k]) + ranked[k].estimatedHours > budget
    requires multiset(pick) <= multiset(ranked) && Hours(pick) <= budget
    ensures Risk(pick) <= Gain(Picked(ranked, budget)) + Gain([ranked[k]])
  {
    var e := RatesAroundPivot(ranked, k);
    assert ranked == ranked[..k] + ranked[k..];
    BoundAtPivot(ranked[..k], ranked[k..], budget, pick, e, ranked[k]);
    AllAheadGain(ranked, k);
    GainGrows(ranked, budget, k);
    assert [ranked[k]][..0] == [];
  }

  lemma AllAheadGain(ranked: seq<WorkItem>, k: nat)
    requires Sorted(EfficiencyLeq, ranked) && AllCosted(ranked) && k < |ranked| && ranked[k].riskWeight >= 0.0
    ensures Gain(ranked[..k]) == Risk(ranked[..k])
  {
    forall i | 0 <= i < k
      ensures ranked[i].riskWeight >= 0.0
    {
      assert Costed(ranked[i]) && Costed(ranked[k]);
      AheadOfGain(ranked[i], ranked[k]);
    }
    GainIsRisk(ranked[..k]);
  }

  lemma BoundAtLoss(ranked: seq<WorkItem>, budget: real, pick: seq<WorkItem>, k: nat)
    requires Sorted(EfficiencyLeq, ranked) && AllCosted(ranked) && k < |ranked| && ranked[k].riskWeight < 0.0
    requires Picked(ranked[..k], budget) == ranked[..k] && multiset(pick) <= multiset(ranked)
    ensures Risk(pick) <= Gain(Picked(ranked, budget)) + Gain([ranked[k]])
  {
    var j := GainsComeFirst(ranked);
    assert ranked == ranked[..j] + ranked[j..];
    forall i | 0 <= i < j
      ensures ranked[i].riskWeight >= 0.0
    {
      assert ranked[i] in ranked[..j];
    }
    BestAtRate(0.0, pick, ranked[..j], ranked[j..]);
    MarginsSum(0.0, pick);
    MarginsSum(0.0, ranked[..j]);
    GainIsRisk(ranked[..j]);
    TakenPrefix(ranked, budget, j, k);
    GainGrows(ranked, budget, j);
    assert [ranked[k]][..0] == [];
  }

  /** What was taken whole was taken whole before. */
  lemma {:induction false} TakenPrefix(items: seq<WorkItem>, budget: real, j: nat, k: nat)
    requires j <= k <= |items| && Picked(items[..k], budget) == items[..k]
    ensures Picked(items[..j], budget) == items[..j]
  {
    if j < k {
      var shorter := items[..k - 1];
      assert items[..k][..k - 1] == shorter;
      PickedLength(shorter, budget);
      assert |items[..k]| == |Picked(shorter, budget)| + 1;
      assert Picked(shorter, budget) == items[..k][..k - 1];
      TakenPrefix(items, budget, j, k - 1);
    }
  }

  lemma {:induction false} PickedLength(items: seq<WorkItem>, budget: real)
    ensures |Picked(items, budget)| <= |items|
  {
    if items != [] {
      PickedLength(items[..|items| - 1], budget);
    }
  }

  lemma {:induction false} PickedAreItems(items: seq<WorkItem>, budget: real)
    ensures forall i :: i in Picked(items, budget) ==> i in items
  {
    if items != [] {
      PickedAreItems(items[..|items| - 1], budget);
    }
  }

  lemma RateGap(e: real, a: real, b: real, h: real)
    requires e >= 0.0 && a - b <= h
    ensures e * a - e * b <= e * h
  {
    assert e * (a - b) <= e * h;
  }

  /** The first rejection of the bound exists whenever something is rejected. */
  lemma {:induction false} FirstRejection(items: seq<WorkItem>, budget: real) returns (k: nat)
    requires Rejected(items, budget) != []
    ensures k < |items| && Picked(items[..k], budget) == items[..k]
    ensures Hours(items[..k]) + items[k].estimatedHours > budget
  {
    var front := items[..|items| - 1];
    if Rejected(front, budget) == [] {
      k := |items| - 1;
      NothingRejected(front, budget);
    } else {
      k := FirstRejection(front, budget);
      assert front[..k] == items[..k];
    }
  }

  lemma {:induction false} NothingRejected(items: seq<WorkItem>, budget: real)
    requires Rejected(items, budget) == []
    ensures Picked(items, budget) == items
  {
    if items != [] {
      NothingRejected(items[..|items| - 1], budget);
      assert items == items[..|items| - 1] + [items[|items| - 1]];
    }
  }

  // ---- Order of the program ----

  lemma {:induction false} PickedKeepsOrder(items: seq<WorkItem>, budget: real, x: WorkItem, y: WorkItem)
    requires Distinct(items) && Before(items, x, y)
    requires x in Picked(items, budget) && y in Picked(items, budget)
    ensures Before(Picked(items, budget), x, y)
  {
    var n := |items| - 1;
    var front := items[..n];
    var before := Picked(front, budget);
    var i, j :| 0 <= i < j < |items| && items[i] == x && items[j] == y;
    PickedAreItems(front, budget);
    assert items[n] !in front;
    var p :| 0 <= p < |Picked(items, budget)| && Picked(items, budget)[p] == x;
    assert front[i] == x && before[p] == x;
    if j < n {
      assert front[j] == y;
      PickedKeepsOrder(front, budget, x, y);
      var a, b :| 0 <= a < b < |before| && before[a] == x && before[b] == y;
      assert Picked(items, budget)[a] == x && Picked(items, budget)[b] == y;
    } else {
      assert Picked(items, budget)[|before|] == y;
    }
  }

  /** The items of controls `a` and `b` are both in the program. */
  ghost predicate BothTaken(controls: seq<Control>, ids: seq<Uuid>, budget: real, a: nat, b: nat)
    requires |ids| == |controls| && a < |controls| && b < |controls|
  {
    var all, picked := Candidates(controls, ids), Picked(Ranked(controls, ids), budget);
    all[a] in picked && all[b] in picked
  }

  ghost predicate ListedFirst(controls: seq<Control>, ids: seq<Uuid>, budget: real, a: nat, b: nat)
    requires |ids| == |controls| && a < |controls| && b < |controls|
  {
    Before(Program(controls, ids, budget), Candidates(controls, ids)[a], Candidates(controls, ids)[b])
  }

  /** Of two items taken, the earlier candidate is listed first exactly when its risk weight
      and control id compare before the other's; it also is when they are the same. */
  lemma ListedFirstIff(controls: seq<Control>, ids: seq<Uuid>, budget: real, a: nat, b: nat)
    requires |ids| == |controls| && Distinct(ids) && a < b < |controls|
    ensures BothTaken(controls, ids, budget, a, b) ==>
      (ListedFirst(controls, ids, budget, a, b) <==>
        RiskLeq(Candidates(controls, ids)[a], Candidates(controls, ids)[b]))
  {
    if BothTaken(controls, ids, budget, a, b) {
      var picked := Picked(Ranked(controls, ids), budget);
      var x, y := Candidates(controls, ids)[a], Candidates(controls, ids)[b];
      OrdersAreTotal();
      SortIsSortedPermutation(RiskLeq, picked);
      if !RiskLeq(y, x) {
        SortOrders(RiskLeq, picked, x, y);
      } else if RiskLeq(x, y) {
        KeyLeqOrders((x.riskWeight, x.controlId), (y.riskWeight, y.controlId), (x.riskWeight, x.controlId));
        TiesKeepOrder(controls, ids, budget, a, b);
      }
    }
  }

  lemma TiesKeepOrder(controls: seq<Control>, ids: seq<Uuid>, budget: real, a: nat, b: nat)
    requires |ids| == |controls| && Distinct(ids) && a < b < |controls|
    requires var all := Candidates(controls, ids);
      all[a].riskWeight == all[b].riskWeight && all[a].controlId == all[b].controlId
    ensures BothTaken(controls, ids, budget, a, b) ==> ListedFirst(controls, ids, budget, a, b)
  {
    if BothTaken(controls, ids, budget, a, b) {
      var all, ranked := Candidates(controls, ids), Ranked(controls, ids);
      var x, y := all[a], all[b];
      OrdersAreTotal();
      KeyLeqOrders((Efficiency(x), x.controlId), (Efficiency(y), y.controlId), (Efficiency(x), x.controlId));
      KeyLeqOrders((x.riskWeight, x.controlId), (y.riskWeight, y.controlId), (x.riskWeight, x.controlId));
      SortIsStable(EfficiencyLeq, all, a, b);
      RankedIsDistinct(controls, ids);
      PickedKeepsOrder(ranked, budget, x, y);
      var picked := Picked(ranked, budget);
      var i, j :| 0 <= i < j < |picked| && picked[i] == x && picked[j] == y;
      SortIsStable(RiskLeq, picked, i, j);
    }
  }

  lemma RankedIsDistinct(controls: seq<Control>, ids: seq<Uuid>)
    requires |ids| == |controls| && Distinct(ids)
    ensures Distinct(Ranked(controls, ids))
  {
    var all := Candidates(controls, ids);
    forall i, j | 0 <= i < j < |all|
      ensures all[i] != all[j]
    {
      assert all[i].itemId == ids[i] && all[j].itemId == ids[j];
    }
    RankedIsPermutation(controls, ids);
    PermutationIsDistinct(all, Ranked(controls, ids));
  }

  // ---- Generation from a scope document ----

  datatype ProgramError = ScopeNotApproved

  predicate IsInScope(nodes: map<Uuid, Node>, id: Uuid) {
    id in nodes && nodes[id].boundary.InScope?
  }

  /** Each node is listed after the in-scope nodes above it, over whatever nodes in between. */
  ghost predicate AncestorsComeFirst(s: Scope, ids: seq<Uuid>) {
    forall i, p :: 0 <= i < |ids| && IsInScope(s.nodes, p) && Above(s.children, p, ids[i]) ==> p in ids[..i]
  }

  /** The in-scope nodes, each once, in topological order. */
  ghost predicate InScopeListing(s: Scope, listed: seq<Uuid>) {
    && Distinct(listed)
    && (forall id :: id in listed <==> IsInScope(s.nodes, id))
    && AncestorsComeFirst(s, listed)
  }

  /** What the nodes ask for as evidence. */
  type Needs = map<Uuid, Option<seq<string>>>

  function ControlsOf(nodes: map<Uuid, Node>, needs: Needs, listed: seq<Uuid>): (controls: seq<Control>)
    requires forall id :: id in listed ==> id in nodes && id in needs
  {
    seq(|listed|, k requires 0 <= k < |listed| =>
      assert listed[k] in listed;
      Control(nodes[listed[k]].controlId, Some(nodes[listed[k]].riskWeight), needs[listed[k]]))
  }

  /** In a program generated from a document, a node is listed before one below it exactly when
      its risk weight and control id compare before the other's, or are the same; the order of
      the document has no other say. */
  lemma AncestorListedFirstIff(s: Scope, needs: Needs, listed: seq<Uuid>, ids: seq<Uuid>, budget: real, a: nat, b: nat)
    requires InScopeListing(s, listed) && s.nodes.Keys == needs.Keys
    requires |ids| == |listed| && Distinct(ids) && a < |listed| && b < |listed|
    requires Above(s.children, listed[a], listed[b]) && listed[a] in s.nodes && listed[b] in s.nodes
    ensures var controls, above, below := ControlsOf(s.nodes, needs, listed), s.nodes[listed[a]], s.nodes[listed[b]];
      BothTaken(controls, ids, budget, a, b) ==>
        (ListedFirst(controls, ids, budget, a, b) <==>
          KeyLeq((above.riskWeight, above.controlId), (below.riskWeight, below.controlId)))
  {
    assert listed[a] in listed && listed[a] in listed[..b];
    assert a < b;
    ListedFirstIff(ControlsOf(s.nodes, needs, listed), ids, budget, a, b);
  }

  /** It can go wrong: in an approved document of a parent of weight 1 and a child of weight 5
      the program with room for both lists the child first. */
  lemma ChildCanComeFirst() returns (s: Scope, listed: seq<Uuid>)
    ensures Consistent(s) && s.state.Approved? && InScopeListing(s, listed)
    ensures listed == [1, 2] && 1 in s.nodes && 2 in s.nodes && 1 in s.nodes[2].parentIds
    ensures var controls := ControlsOf(s.nodes, map[1 := None, 2 := None], listed);
      |Program(controls, [3, 4], 24.0)| == 2 && ListedFirst(controls, [3, 4], 24.0, 1, 0)
  {
    s := ApprovedPair();
    listed := [1, 2];
    ConsistentIsAcyclic(s);
    TopologicalListsAncestorsFirst(s, listed);
    HeavierComesFirst(ControlsOf(s.nodes, map[1 := None, 2 := None], listed), [3, 4]);
  }

  lemma ApprovedPair() returns (s: Scope)
    ensures Consistent(s) && s.state.Approved? && s.order == [1, 2]
    ensures s.nodes == map[1 := Node(1, "a", 1.0, [], InScope), 2 := Node(2, "b", 5.0, [1], InScope)]
  {
    s := TwoNodes(Node(1, "a", 1.0, [], InScope), Node(2, "b", 5.0, [1], InScope));
    ApplyKeepsConsistent(s, Transition(Proposed));
    s := Apply(s, Transition(Proposed)).value;
    ApplyKeepsConsistent(s, Transition(Approved));
    s := Apply(s, Transition(Approved)).value;
  }

  lemma TopologicalListsAncestorsFirst(s: Scope, ids: seq<Uuid>)
    requires IsTopological(s.children, ids) && Closed(s.children)
    ensures AncestorsComeFirst(s, ids)
  {
    forall i, p | 0 <= i < |ids| && Above(s.children, p, ids[i])
      ensures p in ids[..i]
    {
      AboveIsEarlier(s.children, ids, p, i);
    }
  }

  lemma HeavierComesFirst(controls: seq<Control>, ids: seq<Uuid>)
    requires |controls| == 2 && |ids| == 2
    requires controls[0].riskWeight == Some(1.0) && controls[1].riskWeight == Some(5.0)
    ensures |Program(controls, ids, 24.0)| == 2 && ListedFirst(controls, ids, 24.0, 1, 0)
  {
    var all := Candidates(controls, ids);
    CandidatesAreCosted(controls, ids);
    HoursOfTwo(all);
    TakesAllThatFits(controls, ids, 24.0);
    assert all[0] in all && all[1] in all;
    OrdersAreTotal();
    SortOrders(RiskLeq, Ranked(controls, ids), all[1], all[0]);
    SortIsSortedPermutation(RiskLeq, Ranked(controls, ids));
  }

  lemma HoursOfTwo(all: seq<WorkItem>)
    requires |all| == 2 && AllCosted(all) && all[0].riskWeight == 1.0 && all[1].riskWeight == 5.0
    ensures Hours(all) == 24.0
  {
    assert Costed(all[0]) && Costed(all[1]);
    assert EstimateHours(1.0) == 4.0 && EstimateHours(5.0) == 20.0;
    assert all == [] + [all[0]] + [all[1]];
    SumsNext([], all[0]);
    SumsNext([] + [all[0]], all[1]);
  }

  /** With a budget for everything, everything is taken. */
  lemma TakesAllThatFits(controls: seq<Control>, ids: seq<Uuid>, budget: real)
    requires |ids| == |controls| && Hours(Candidates(controls, ids)) <= budget
    ensures Picked(Ranked(controls, ids), budget) == Ranked(controls, ids)
    ensures |Ranked(controls, ids)| == |controls|
    ensures forall i :: i in Candidates(controls, ids) ==> i in Ranked(controls, ids)
  {
    var ranked, all := Ranked(controls, ids), Candidates(controls, ids);
    RankedIsPermutation(controls, ids);
    OrdersAreTotal();
    SortIsSortedPermutation(EfficiencyLeq, all);
    SameMembers(ranked, all);
    SumsOfPermutation(ranked, all);
    AmpleBudget(ranked, budget);
  }

  lemma {:induction false} AmpleBudget(items: seq<WorkItem>, budget: real)
    requires Hours(items) <= budget && AllCosted(items)
    ensures Picked(items, budget) == items
  {
    if items != [] {
      var front, last := items[..|items| - 1], items[|items| - 1];
      assert Costed(last) && items == front + [last];
      AmpleBudget(front, budget);
    }
  }

  function NeedsOf(nodes: map<Uuid, ScopeNode>): Needs {
    map id | id in nodes :: nodes[id].evidenceRequired
  }

  /** Only an APPROVED or LOCKED document yields a program, and it is generated from the
      in-scope nodes in topological order. `supply` provides the item identifiers. */
  method GenerateFromDag(dag: AuditScopeDag, budget: real, supply: seq<Uuid>)
    returns (r: Result<WorkProgram, ProgramError>, ghost listed: seq<Uuid>)
    requires dag.Valid() && |supply| >= |dag.order|
    ensures r.Ok? <==> dag.state.Approved? || dag.state.Locked?
    ensures r.Ok? ==> InScopeListing(dag.View(), listed) && |listed| <= |supply|
    ensures r.Ok? ==>
      IsProgramOf(r.value, ControlsOf(dag.View().nodes, NeedsOf(dag.nodes), listed), supply[..|listed|], budget)
  {
    listed := [];
    if !dag.state.Approved? && !dag.state.Locked? {
      return Err(ScopeNotApproved), listed;
    }
    var controls;
    controls, listed := InScopeControls(dag);
    var program := GenerateWorkProgram(controls, budget, supply[..|controls|]);
    r := Ok(program);
  }

  function InScopeIds(nodes: map<Uuid, Node>, ids: seq<Uuid>): seq<Uuid> {
    if ids == [] then []
    else
      var id := ids[|ids| - 1];
      InScopeIds(nodes, ids[..|ids| - 1]) + if IsInScope(nodes, id) then [id] else []
  }

  lemma {:induction false} InScopeIdsHolds(nodes: map<Uuid, Node>, ids: seq<Uuid>, id: Uuid)
    ensures id in InScopeIds(nodes, ids) <==> id in ids && IsInScope(nodes, id)
    ensures |InScopeIds(nodes, ids)| <= |ids|
  {
    if ids != [] {
      var n := |ids| - 1;
      InScopeIdsHolds(nodes, ids[..n], id);
      assert ids == ids[..n] + [ids[n]];
    }
  }

  lemma {:induction false} InScopeIdsAreDistinct(nodes: map<Uuid, Node>, ids: seq<Uuid>)
    requires Distinct(ids)
    ensures Distinct(InScopeIds(nodes, ids))
  {
    if ids != [] {
      var n := |ids| - 1;
      InScopeIdsAreDistinct(nodes, ids[..n]);
      InScopeIdsHolds(nodes, ids[..n], ids[n]);
    }
  }

  lemma {:induction false} InScopeAncestorsComeFirst(s: Scope, ids: seq<Uuid>, i: nat, p: Uuid)
    requires AncestorsComeFirst(s, ids) && i < |InScopeIds(s.nodes, ids)|
    requires IsInScope(s.nodes, p) && Above(s.children, p, InScopeIds(s.nodes, ids)[i])
    ensures p in InScopeIds(s.nodes, ids)[..i]
  {
    var n := |ids| - 1;
    var front, listed := InScopeIds(s.nodes, ids[..n]), InScopeIds(s.nodes, ids);
    if i < |front| {
      forall k, q | 0 <= k < n && IsInScope(s.nodes, q) && Above(s.children, q, ids[..n][k])
        ensures q in ids[..n][..k]
      {
        assert q in ids[..k] && ids[..n][..k] == ids[..k];
      }
      InScopeAncestorsComeFirst(s, ids[..n], i, p);
      assert front[..i] == listed[..i];
    } else {
      assert listed[..i] == front && p in ids[..n];
      InScopeIdsHolds(s.nodes, ids[..n], p);
    }
  }

  lemma InScopeIdsAreListing(s: Scope, ids: seq<Uuid>)
    requires Distinct(ids) && AncestorsComeFirst(s, ids) && forall id :: id in ids <==> id in s.nodes
    ensures InScopeListing(s, InScopeIds(s.nodes, ids)) && |InScopeIds(s.nodes, ids)| <= |ids|
  {
    var listed := InScopeIds(s.nodes, ids);
    InScopeIdsAreDistinct(s.nodes, ids);
    forall id
      ensures id in listed <==> IsInScope(s.nodes, id)
      ensures |listed| <= |ids|
    {
      InScopeIdsHolds(s.nodes, ids, id);
    }
    forall i, p | 0 <= i < |listed| && IsInScope(s.nodes, p) && Above(s.children, p, listed[i])
      ensures p in listed[..i]
    {
      InScopeAncestorsComeFirst(s, ids, i, p);
    }
  }

  function ControlOf(node: ScopeNode): Control {
    Control(node.controlId, Some(node.riskWeight), node.evidenceRequired)
  }

  method InScopeControls(dag: AuditScopeDag) returns (controls: seq<Control>, listed: seq<Uuid>)
    requires dag.Valid()
    ensures InScopeListing(dag.View(), listed) && |listed| <= |dag.order|
    ensures controls == ControlsOf(dag.View().nodes, NeedsOf(dag.nodes), listed)
  {
    var inScope;
    inScope, listed := InScopeNodes(dag);
    controls := seq(|inScope|, k requires 0 <= k < |inScope| => ControlOf(inScope[k]));
    ghost var views := dag.View().nodes;
    forall k | 0 <= k < |listed|
      ensures views[listed[k]] == dag.nodes[listed[k]].View()
    {
      assert listed[k] in listed;
    }
  }

  method InScopeNodes(dag: AuditScopeDag) returns (inScope: seq<ScopeNode>, listed: seq<Uuid>)
    requires dag.Valid()
    ensures InScopeListing(dag.View(), listed)
    ensures |inScope| == |listed| <= |dag.order|
    ensures forall k :: 0 <= k < |listed| ==> listed[k] in dag.nodes && dag.nodes[listed[k]] == inScope[k]
  {
    var sorted := dag.TopologicalOrder();
    var nodes := sorted.value;
    ghost var ids := seq(|nodes|, k requires 0 <= k < |nodes| => nodes[k].nodeId);
    TopologicalIds(dag, nodes, ids);
    inScope := OnlyInScope(nodes);
    listed := seq(|inScope|, k requires 0 <= k < |inScope| => inScope[k].nodeId);
    InScopeOfIds(dag.View().nodes, nodes, ids);
    InScopeIdsAreListing(dag.View(), ids);
    assert listed == InScopeIds(dag.View().nodes, ids);
  }

  function InScopeOf(nodes: seq<ScopeNode>): seq<ScopeNode>
    reads nodes
  {
    if nodes == [] then []
    else
      var n := nodes[|nodes| - 1];
      InScopeOf(nodes[..|nodes| - 1]) + if n.boundaryStatus.InScope? then [n] else []
  }

  method OnlyInScope(nodes: seq<ScopeNode>) returns (inScope: seq<ScopeNode>)
    ensures inScope == InScopeOf(nodes)
  {
    inScope := [];
    for k := 0 to |nodes|
      invariant inScope == InScopeOf(nodes[..k])
    {
      assert nodes[..k + 1][..k] == nodes[..k];
      if nodes[k].boundaryStatus.InScope? {
        inScope := inScope + [nodes[k]];
      }
    }
    assert nodes[..|nodes|] == nodes;
  }

  lemma {:induction false} InScopeOfIds(views: map<Uuid, Node>, nodes: seq<ScopeNode>, ids: seq<Uuid>)
    requires |ids| == |nodes|
    requires forall k :: 0 <= k < |ids| ==>
      ids[k] in views && ids[k] == nodes[k].nodeId && views[ids[k]] == nodes[k].View()
    ensures |InScopeOf(nodes)| == |InScopeIds(views, ids)|
    ensures forall i :: 0 <= i < |InScopeOf(nodes)| ==>
      InScopeOf(nodes)[i] in nodes && InScopeOf(nodes)[i].nodeId == InScopeIds(views, ids)[i]
  {
    if ids != [] {
      var n := |ids| - 1;
      InScopeOfIds(views, nodes[..n], ids[..n]);
      assert IsInScope(views, ids[n]) <==> nodes[n].boundaryStatus.InScope?;
    }
  }

  lemma TopologicalIds(dag: AuditScopeDag, nodes: seq<ScopeNode>, ids: seq<Uuid>)
    requires dag.Valid() && Distinct(nodes) && ParentsFirst(nodes)
    requires forall n :: n in nodes <==> n in dag.nodes.Values
    requires |ids| == |nodes| && forall k :: 0 <= k < |ids| ==> ids[k] == nodes[k].nodeId
    ensures forall k :: 0 <= k < |ids| ==> ids[k] in dag.nodes && dag.nodes[ids[k]] == nodes[k]
    ensures Distinct(ids) && (forall id :: id in ids <==> id in dag.nodes) && |ids| == |dag.order|
    ensures AncestorsComeFirst(dag.View(), ids)
  {
    dag.ViewsAgree();
    forall k | 0 <= k < |ids|
      ensures ids[k] in dag.nodes && dag.nodes[ids[k]] == nodes[k]
    {
      assert nodes[k] in nodes;
    }
    forall id | id in dag.nodes
      ensures id in ids
    {
      assert dag.nodes[id] in nodes;
      var k :| 0 <= k < |nodes| && nodes[k] == dag.nodes[id];
      assert ids[k] == id;
    }
    forall i, p | 0 <= i < |ids| && p in nodes[i].parentIds
      ensures p in ids[..i]
    {
      var j :| 0 <= j < i && nodes[j].nodeId == p;
      assert ids[..i][j] == p;
    }
    DistinctSize(ids);
    DistinctSize(dag.order);
    assert SetOf(ids) == SetOf(dag.order);
    ConsistentIsAcyclic(dag.View());
    IsTopologicalOrder(dag.View(), ids);
    TopologicalListsAncestorsFirst(dag.View(), ids);
  }

  lemma IsTopologicalOrder(s: Scope, ids: seq<Uuid>)
    requires Consistent(s) && Distinct(ids) && SetOf(ids) == s.nodes.Keys
    requires forall i, p :: 0 <= i < |ids| && ids[i] in s.nodes && p in s.nodes[ids[i]].parentIds ==> p in ids[..i]
    ensures IsTopological(s.children, ids)
  {
  }

  // ---- Coverage gap ----

  function CoverageGap(items: seq<WorkItem>, controls: seq<Control>): seq<string> {
    if controls == [] then []
    else
      var id := controls[|controls| - 1].controlId;
      CoverageGap(items, controls[..|controls| - 1])
      + if exists i :: i in items && i.controlId == id then [] else [id]
  }

  lemma {:induction false} GapHolds(items: seq<WorkItem>, controls: seq<Control>, id: string)
    ensures id in CoverageGap(items, controls) <==>
      (exists c :: c in controls && c.controlId == id) && !exists i :: i in items && i.controlId == id
  {
    if controls != [] {
      var front := controls[..|controls| - 1];
      GapHolds(items, front, id);
      assert controls == front + [controls[|controls| - 1]];
    }
  }

  ghost predicate HasItem(items: seq<WorkItem>, id: string) {
    exists i :: i in items && i.controlId == id
  }

  /** The gap names exactly the control ids of rejected items that no item taken has. */
  lemma GapIsRejected(controls: seq<Control>, ids: seq<Uuid>, budget: real, id: string)
    requires |ids| == |controls|
    ensures var ranked := Ranked(controls, ids);
      id in CoverageGap(Program(controls, ids, budget), controls) <==>
        HasItem(Rejected(ranked, budget), id) && !HasItem(Picked(ranked, budget), id)
  {
    var ranked, all := Ranked(controls, ids), Candidates(controls, ids);
    var picked, rejected := Picked(ranked, budget), Rejected(ranked, budget);
    SelectionFacts(controls, ids, budget);
    OrdersAreTotal();
    SortIsSortedPermutation(RiskLeq, picked);
    SameMembers(Sort(RiskLeq, picked), picked);
    GapHolds(Sort(RiskLeq, picked), controls, id);
    SplitMembers(all, picked, rejected);
    CandidatesCarryIds(controls, ids, id);
  }

  lemma CandidatesCarryIds(controls: seq<Control>, ids: seq<Uuid>, id: string)
    requires |ids| == |controls|
    ensures HasItem(Candidates(controls, ids), id) <==> exists c :: c in controls && c.controlId == id
  {
    var all := Candidates(controls, ids);
    if i :| i in all && i.controlId == id {
      var k :| 0 <= k < |all| && all[k] == i;
      assert controls[k] in controls;
    }
    if c :| c in controls && c.controlId == id {
      var k :| 0 <= k < |controls| && controls[k] == c;
      assert all[k] in all && all[k].controlId == id;
    }
  }

  ghost predicate DistinctControls(controls: seq<Control>) {
    forall i, j :: 0 <= i < j < |controls| ==> controls[i].controlId != controls[j].controlId
  }

  /** With distinct control ids these are the controls of all rejected items. */
  lemma GapNamesRejected(controls: seq<Control>, ids: seq<Uuid>, budget: real, id: string)
    requires |ids| == |controls| && DistinctControls(controls)
    ensures id in CoverageGap(Program(controls, ids, budget), controls) <==>
      HasItem(Rejected(Ranked(controls, ids), budget), id)
  {
    var picked, rejected := Picked(Ranked(controls, ids), budget), Rejected(Ranked(controls, ids), budget);
    GapIsRejected(controls, ids, budget, id);
    SelectionFacts(controls, ids, budget);
    if i :| i in rejected && i.controlId == id {
      RejectedIsNotPicked(controls, ids, picked, rejected, i);
    }
  }

  lemma RejectedIsNotPicked(controls: seq<Control>, ids: seq<Uuid>, picked: seq<WorkItem>, rejected: seq<WorkItem>,
                            i: WorkItem)
    requires |ids| == |controls| && DistinctControls(controls)
    requires multiset(Candidates(controls, ids)) == multiset(picked) + multiset(rejected) && i in rejected
    ensures !HasItem(picked, i.controlId)
  {
    var all := Candidates(controls, ids);
    SplitMembers(all, picked, rejected);
    var k :| 0 <= k < |all| && all[k] == i;
    ItemOfControl(controls, ids, k);
    PickedOrRejected(all, picked, rejected, k);
  }

  lemma ItemOfControl(controls: seq<Control>, ids: seq<Uuid>, k: nat)
    requires |ids| == |controls| && k < |controls| && DistinctControls(controls)
    ensures Candidates(controls, ids)[k] in Candidates(controls, ids)
    ensures forall i :: i in Candidates(controls, ids) && i.controlId == controls[k].controlId ==>
      i == Candidates(controls, ids)[k]
    ensures multiset(Candidates(controls, ids))[Candidates(controls, ids)[k]] == 1
  {
    OccursOnce(Candidates(controls, ids), k);
  }

  lemma PickedOrRejected(all: seq<WorkItem>, picked: seq<WorkItem>, rejected: seq<WorkItem>, k: nat)
    requires multiset(all) == multiset(picked) + multiset(rejected)
    requires k < |all| && multiset(all)[all[k]] == 1
    ensures all[k] in picked <==> all[k] !in rejected
  {
    assert all[k] in picked <==> multiset(picked)[all[k]] > 0;
    assert all[k] in rejected <==> multiset(rejected)[all[k]] > 0;
  }

  lemma SplitMembers(all: seq<WorkItem>, a: seq<WorkItem>, b: seq<WorkItem>)
    requires multiset(all) == multiset(a) + multiset(b)
    ensures forall i :: i in all <==> i in a || i in b
  {
    assert multiset(a + b) == multiset(a) + multiset(b);
    SameMembers(all, a + b);
  }

  lemma OccursOnce(items: seq<WorkItem>, k: nat)
    requires k < |items| && forall j :: 0 <= j < |items| && j != k ==> items[j] != items[k]
    ensures multiset(items)[items[k]] == 1
  {
    assert items == items[..k] + [items[k]] + items[k + 1..];
    assert items[k] !in items[..k] && items[k] !in items[k + 1..];
  }
}
