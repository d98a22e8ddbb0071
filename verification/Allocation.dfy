/** Risk-weighted allocation of work items to auditors (engine/economy/resource_allocation.py). */
module Allocation {
  import opened Common
  import opened Ordering
  import opened WorkProgram

  datatype Auditor = Auditor(auditorId: Uuid, available: real, hourlyCost: real, specializations: set<string>,
                             hoursTaken: real, assignedIds: seq<Uuid>)

  /** The result so far. `given` and `left` are the items behind the identifiers: those
      placed with each auditor, and those placed with nobody. */
  datatype Allocation = Allocation(auditors: seq<Auditor>, assignments: map<Uuid, Uuid>, unassigned: seq<Uuid>,
                                   cost: real, given: seq<seq<WorkItem>>, left: seq<WorkItem>)

  function Remaining(a: Auditor): real {
    if a.available - a.hoursTaken > 0.0 then a.available - a.hoursTaken else 0.0
  }

  predicate Eligible(a: Auditor, item: WorkItem, specialist: bool) {
    Remaining(a) >= item.estimatedHours
    && (specialist ==> exists s :: s in a.specializations && s in item.evidenceRequired)
  }

  /** One pass over the first `n` auditors: most remaining hours, earliest on a tie. */
  function Best(auditors: seq<Auditor>, item: WorkItem, specialist: bool, n: nat): (best: Option<nat>)
    requires n <= |auditors|
    ensures best.Some? ==> best.value < n
  {
    if n == 0 then None
    else
      var best := Best(auditors, item, specialist, n - 1);
      if Eligible(auditors[n - 1], item, specialist)
         && (best.None? || Remaining(auditors[n - 1]) > Remaining(auditors[best.value]))
      then Some(n - 1) else best
  }

  function Choose(auditors: seq<Auditor>, item: WorkItem): (choice: Option<nat>)
    ensures choice.Some? ==> choice.value < |auditors|
  {
    var specialist := Best(auditors, item, true, |auditors|);
    if specialist.Some? then specialist else Best(auditors, item, false, |auditors|)
  }

  function Assign(a: Auditor, item: WorkItem): Auditor {
    a.(hoursTaken := a.hoursTaken + item.estimatedHours, assignedIds := a.assignedIds + [item.itemId])
  }

  function Price(a: Auditor, hours: real): real {
    hours * a.hourlyCost
  }

  function Place(st: Allocation, item: WorkItem, k: nat): Allocation
    requires k < |st.auditors| == |st.given|
  {
    Allocation(st.auditors[k := Assign(st.auditors[k], item)],
               st.assignments[item.itemId := st.auditors[k].auditorId],
               st.unassigned,
               st.cost + Price(st.auditors[k], item.estimatedHours),
               st.given[k := st.given[k] + [item]],
               st.left)
  }

  function Skip(st: Allocation, item: WorkItem): Allocation {
    st.(unassigned := st.unassigned + [item.itemId], left := st.left + [item])
  }

  function Step(st: Allocation, item: WorkItem): (next: Allocation)
    requires |st.auditors| == |st.given|
    ensures |next.auditors| == |next.given| == |st.auditors|
  {
    match Choose(st.auditors, item)
    case Some(k) => Place(st, item, k)
    case None => Skip(st, item)
  }

  function Fill(st: Allocation, items: seq<WorkItem>): (fin: Allocation)
    requires |st.auditors| == |st.given|
    ensures |fin.auditors| == |fin.given| == |st.auditors|
  {
    if items == [] then st else Step(Fill(st, items[..|items| - 1]), items[|items| - 1])
  }

  function Start(auditors: seq<Auditor>): Allocation {
    Allocation(auditors, map[], [], 0.0, seq(|auditors|, _ => []), [])
  }

  function Allocate(items: seq<WorkItem>, auditors: seq<Auditor>): Allocation {
    if items == [] || auditors == [] then Start(auditors) else Fill(Start(auditors), Sort(RiskLeq, items))
  }

  // ---- The objects ----

  class AuditorResource {
    const auditorId: Uuid
    const availableHours: real
    const hourlyCost: real
    const specializations: set<string>
    var allocatedHours: real
    var assignedItemIds: seq<Uuid>

    constructor (auditorId: Uuid, availableHours: real, hourlyCost: real, specializations: set<string>)
      ensures View() == Auditor(auditorId, availableHours, hourlyCost, specializations, 0.0, [])
    {
      this.auditorId := auditorId;
      this.availableHours := availableHours;
      this.hourlyCost := hourlyCost;
      this.specializations := specializations;
      allocatedHours, assignedItemIds := 0.0, [];
    }

    function View(): Auditor
      reads this
    {
      Auditor(auditorId, availableHours, hourlyCost, specializations, allocatedHours, assignedItemIds)
    }

    method AssignItem(item: WorkItem)
      modifies this
      ensures View() == Assign(old(View()), item)
    {
      allocatedHours := allocatedHours + item.estimatedHours;
      assignedItemIds := assignedItemIds + [item.itemId];
    }
  }

  function Views(auditors: seq<AuditorResource>): (views: seq<Auditor>)
    reads auditors
    ensures |views| == |auditors| && forall k :: 0 <= k < |views| ==> views[k] == auditors[k].View()
  {
    if auditors == [] then [] else Views(auditors[..|auditors| - 1]) + [auditors[|auditors| - 1].View()]
  }

  method FindBest(auditors: seq<AuditorResource>, item: WorkItem, specialist: bool) returns (best: Option<nat>)
    ensures best == Best(Views(auditors), item, specialist, |auditors|)
  {
    best := None;
    ghost var views := Views(auditors);
    for n := 0 to |auditors|
      invariant best == Best(views, item, specialist, n)
    {
      var aud := auditors[n].View();
      if Eligible(aud, item, specialist) {
        if best.None? || Remaining(aud) > Remaining(auditors[best.value].View()) {
          best := Some(n);
        }
      }
    }
  }

  /** Mutates the auditors in place; they are distinct objects. */
  method AllocateResources(items: seq<WorkItem>, auditors: seq<AuditorResource>)
    returns (assignments: map<Uuid, Uuid>, unassigned: seq<Uuid>, cost: real, ghost given: seq<seq<WorkItem>>,
             ghost left: seq<WorkItem>)
    requires Distinct(auditors)
    modifies auditors
    ensures Allocation(Views(auditors), assignments, unassigned, cost, given, left) ==
      Allocate(items, old(Views(auditors)))
  {
    assignments, unassigned, cost := map[], [], 0.0;
    given, left := seq(|auditors|, _ => []), [];
    if items == [] || auditors == [] {
      return;
    }
    var sorted := Sort(RiskLeq, items);
    ghost var start := Start(Views(auditors));
    for n := 0 to |sorted|
      invariant |given| == |auditors|
      invariant Allocation(Views(auditors), assignments, unassigned, cost, given, left) == Fill(start, sorted[..n])
    {
      assert sorted[..n + 1][..n] == sorted[..n];
      assignments, unassigned, cost, given, left :=
        AllocateOne(sorted[n], auditors, assignments, unassigned, cost, given, left);
    }
    assert sorted[..|sorted|] == sorted;
  }

  /** One turn of the allocation loop. */
  method AllocateOne(item: WorkItem, auditors: seq<AuditorResource>, assignments: map<Uuid, Uuid>,
                     unassigned: seq<Uuid>, cost: real, ghost given: seq<seq<WorkItem>>, ghost left: seq<WorkItem>)
    returns (assignments': map<Uuid, Uuid>, unassigned': seq<Uuid>, cost': real, ghost given': seq<seq<WorkItem>>,
             ghost left': seq<WorkItem>)
    requires Distinct(auditors) && |given| == |auditors|
    modifies auditors
    ensures Allocation(Views(auditors), assignments', unassigned', cost', given', left') ==
      Step(Allocation(old(Views(auditors)), assignments, unassigned, cost, given, left), item)
  {
    assignments', unassigned', cost', given', left' := assignments, unassigned, cost, given, left;
    var best := FindChoice(auditors, item);
    if best.Some? {
      var aud := auditors[best.value];
      PlaceObject(auditors, best.value, item);
      assignments' := assignments[item.itemId := aud.auditorId];
      cost' := cost + item.estimatedHours * aud.hourlyCost;
      given' := given[best.value := given[best.value] + [item]];
    } else {
      unassigned' := unassigned + [item.itemId];
      left' := left + [item];
    }
  }

  method FindChoice(auditors: seq<AuditorResource>, item: WorkItem) returns (best: Option<nat>)
    ensures best == Choose(Views(auditors), item)
  {
    best := FindBest(auditors, item, true);
    if best.None? {
      best := FindBest(auditors, item, false);
    }
  }

  method PlaceObject(auditors: seq<AuditorResource>, k: nat, item: WorkItem)
    requires Distinct(auditors) && k < |auditors|
    modifies auditors[k]
    ensures Views(auditors) == old(Views(auditors))[k := Assign(old(Views(auditors))[k], item)]
  {
    auditors[k].AssignItem(item);
  }

  // ---- The choice ----

  lemma {:induction false} BestIsBest(auditors: seq<Auditor>, item: WorkItem, specialist: bool, n: nat)
    requires n <= |auditors|
    ensures var best := Best(auditors, item, specialist, n);
      if best.Some? then
        && Eligible(auditors[best.value], item, specialist)
        && (forall j :: 0 <= j < n && Eligible(auditors[j], item, specialist) ==>
          Remaining(auditors[j]) <= Remaining(auditors[best.value]))
        && (forall j :: 0 <= j < best.value && Eligible(auditors[j], item, specialist) ==>
          Remaining(auditors[j]) < Remaining(auditors[best.value]))
      else forall j :: 0 <= j < n ==> !Eligible(auditors[j], item, specialist)
  {
    if n > 0 {
      BestIsBest(auditors, item, specialist, n - 1);
    }
  }

  /** The chosen auditor can absorb the item, and has the most hours left among the
      eligible specialists, or among all eligible auditors when no specialist is. */
  lemma ChoiceIsBest(auditors: seq<Auditor>, item: WorkItem)
    ensures var special := exists j :: 0 <= j < |auditors| && Eligible(auditors[j], item, true);
      match Choose(auditors, item)
      case Some(k) =>
        && Eligible(auditors[k], item, special)
        && (forall j :: 0 <= j < |auditors| && Eligible(auditors[j], item, special) ==>
          Remaining(auditors[j]) <= Remaining(auditors[k]))
      case None => forall j :: 0 <= j < |auditors| ==> Remaining(auditors[j]) < item.estimatedHours
  {
    BestIsBest(auditors, item, true, |auditors|);
    BestIsBest(auditors, item, false, |auditors|);
    if Choose(auditors, item).None? {
      assert forall j :: 0 <= j < |auditors| ==> !Eligible(auditors[j], item, false);
    }
  }

  // ---- The books ----

  function Ids(items: seq<WorkItem>): (ids: seq<Uuid>) {
    seq(|items|, i requires 0 <= i < |items| => items[i].itemId)
  }

  function Pool(given: seq<seq<WorkItem>>): multiset<WorkItem> {
    if given == [] then multiset{} else Pool(given[..|given| - 1]) + multiset(given[|given| - 1])
  }

  function Bill(auditors: seq<Auditor>, given: seq<seq<WorkItem>>): real
    requires |auditors| == |given|
  {
    if given == [] then 0.0
    else
      var n := |given| - 1;
      Bill(auditors[..n], given[..n]) + Price(auditors[n], Hours(given[n]))
  }

  lemma {:induction false} PoolOneMore(given: seq<seq<WorkItem>>, k: nat, item: WorkItem)
    requires k < |given|
    ensures Pool(given[k := given[k] + [item]]) == Pool(given) + multiset{item}
  {
    var n, more := |given| - 1, given[k := given[k] + [item]];
    if k < n {
      PoolOneMore(given[..n], k, item);
      assert more[..n] == given[..n][k := given[k] + [item]];
    } else {
      assert more[..n] == given[..n];
    }
  }

  lemma {:induction false} BillOneMore(auditors: seq<Auditor>, given: seq<seq<WorkItem>>, k: nat, item: WorkItem)
    requires |auditors| == |given| && k < |given|
    ensures Bill(auditors, given[k := given[k] + [item]]) ==
      Bill(auditors, given) + Price(auditors[k], item.estimatedHours)
  {
    var n, more := |given| - 1, given[k := given[k] + [item]];
    if k < n {
      BillOneMore(auditors[..n], given[..n], k, item);
      assert more[..n] == given[..n][k := given[k] + [item]];
    } else {
      assert more[..n] == given[..n];
      SumsSplit(given[n], [item]);
      PriceAdds(auditors[n], Hours(given[n]), item.estimatedHours);
    }
  }

  lemma PriceAdds(a: Auditor, h: real, h': real)
    ensures Price(a, h + h') == Price(a, h) + Price(a, h')
  {
  }

  lemma {:induction false} EmptyBooks(auditors: seq<Auditor>, given: seq<seq<WorkItem>>)
    requires |auditors| == |given| && forall k :: 0 <= k < |given| ==> given[k] == []
    ensures Pool(given) == multiset{} && Bill(auditors, given) == 0.0
  {
    if given != [] {
      var n := |given| - 1;
      EmptyBooks(auditors[..n], given[..n]);
      assert Price(auditors[n], 0.0) == 0.0;
    }
  }

  /** The books balance: items split exactly into given and left; each auditor's hours and
      list grew by the items given; cost is what those hours cost at each auditor's rate. */
  ghost predicate Balanced(auditors: seq<Auditor>, st: Allocation, items: seq<WorkItem>) {
    && |auditors| == |st.auditors| == |st.given|
    && multiset(items) == Pool(st.given) + multiset(st.left)
    && st.unassigned == Ids(st.left)
    && st.cost == Bill(auditors, st.given)
    && forall k :: 0 <= k < |auditors| ==> st.auditors[k] == Credited(auditors[k], st.given[k])
  }

  function Credited(a: Auditor, items: seq<WorkItem>): Auditor {
    a.(hoursTaken := a.hoursTaken + Hours(items), assignedIds := a.assignedIds + Ids(items))
  }

  lemma CreditedOneMore(a: Auditor, items: seq<WorkItem>, item: WorkItem)
    ensures Assign(Credited(a, items), item) == Credited(a, items + [item])
  {
    SumsSplit(items, [item]);
  }

  lemma PlaceBalances(auditors: seq<Auditor>, st: Allocation, items: seq<WorkItem>, item: WorkItem, k: nat)
    requires Balanced(auditors, st, items) && k < |auditors|
    ensures Balanced(auditors, Place(st, item, k), items + [item])
  {
    PoolOneMore(st.given, k, item);
    BillOneMore(auditors, st.given, k, item);
    CreditedOneMore(auditors[k], st.given[k], item);
    SamePrice(auditors[k], st.auditors[k], item.estimatedHours);
    var t := Place(st, item, k);
    assert multiset(items + [item]) == multiset(items) + multiset{item};
    assert t.cost == Bill(auditors, t.given);
  }

  lemma SamePrice(a: Auditor, b: Auditor, hours: real)
    requires a.hourlyCost == b.hourlyCost
    ensures Price(a, hours) == Price(b, hours)
  {
  }

  lemma SkipBalances(auditors: seq<Auditor>, st: Allocation, items: seq<WorkItem>, item: WorkItem)
    requires Balanced(auditors, st, items)
    ensures Balanced(auditors, Skip(st, item), items + [item])
  {
  }

  lemma {:induction false} FillBalances(auditors: seq<Auditor>, items: seq<WorkItem>)
    ensures Balanced(auditors, Fill(Start(auditors), items), items)
  {
    if items == [] {
      EmptyBooks(auditors, Start(auditors).given);
      assert forall k :: 0 <= k < |auditors| ==> auditors[k].assignedIds + Ids([]) == auditors[k].assignedIds;
    } else {
      var front, last := items[..|items| - 1], items[|items| - 1];
      FillBalances(auditors, front);
      var st := Fill(Start(auditors), front);
      match Choose(st.auditors, last) {
        case Some(k) => PlaceBalances(auditors, st, front, last, k);
        case None => SkipBalances(auditors, st, front, last);
      }
      assert items == front + [last];
    }
  }

  /** The books of every allocation balance. */
  lemma BooksBalance(items: seq<WorkItem>, auditors: seq<Auditor>)
    requires items == [] || auditors != []
    ensures Balanced(auditors, Allocate(items, auditors), items)
  {
    OrdersAreTotal();
    SortIsSortedPermutation(RiskLeq, items);
    FillBalances(auditors, []);
    FillBalances(auditors, Sort(RiskLeq, items));
  }

  // ---- Capacity ----

  ghost predicate WithinCapacity(auditors: seq<Auditor>) {
    forall k :: 0 <= k < |auditors| ==> auditors[k].hoursTaken <= auditors[k].available
  }

  ghost predicate LeftFitsNobody(st: Allocation) {
    forall i, k :: i in st.left && 0 <= k < |st.auditors| ==> i.estimatedHours > Remaining(st.auditors[k])
  }

  /** No auditor is over-allocated, and no item is left that some auditor could still take. */
  lemma CapacityIsKept(items: seq<WorkItem>, auditors: seq<Auditor>)
    requires WithinCapacity(auditors) && forall i :: i in items ==> i.estimatedHours >= 0.0
    ensures WithinCapacity(Allocate(items, auditors).auditors) && LeftFitsNobody(Allocate(items, auditors))
  {
    OrdersAreTotal();
    SortIsSortedPermutation(RiskLeq, items);
    SameMembers(Sort(RiskLeq, items), items);
    CapacityIsRespected(auditors, Sort(RiskLeq, items));
  }

  lemma {:induction false} CapacityIsRespected(auditors: seq<Auditor>, items: seq<WorkItem>)
    requires WithinCapacity(auditors) && forall i :: i in items ==> i.estimatedHours >= 0.0
    ensures WithinCapacity(Fill(Start(auditors), items).auditors)
    ensures LeftFitsNobody(Fill(Start(auditors), items))
  {
    if items != [] {
      var front, last := items[..|items| - 1], items[|items| - 1];
      assert items == front + [last];
      CapacityIsRespected(auditors, front);
      StepRespectsCapacity(Fill(Start(auditors), front), last);
    }
  }

  lemma StepRespectsCapacity(st: Allocation, item: WorkItem)
    requires |st.auditors| == |st.given| && item.estimatedHours >= 0.0
    requires WithinCapacity(st.auditors) && LeftFitsNobody(st)
    ensures WithinCapacity(Step(st, item).auditors) && LeftFitsNobody(Step(st, item))
  {
    BestIsBest(st.auditors, item, true, |st.auditors|);
    BestIsBest(st.auditors, item, false, |st.auditors|);
    match Choose(st.auditors, item)
    case Some(k) =>
      assert Remaining(st.auditors[k]) >= item.estimatedHours;
    case None =>
      assert forall k :: 0 <= k < |st.auditors| ==> !Eligible(st.auditors[k], item, false);
  }

  // ---- Priority ----

  lemma {:induction false} FillSplit(st: Allocation, a: seq<WorkItem>, b: seq<WorkItem>)
    requires |st.auditors| == |st.given|
    ensures Fill(st, a + b) == Fill(Fill(st, a), b)
  {
    if b == [] {
      assert a + b == a;
    } else {
      FillSplit(st, a, b[..|b| - 1]);
      assert (a + b)[..|a + b| - 1] == a + b[..|b| - 1];
    }
  }

  ghost predicate Prolongs(later: Allocation, earlier: Allocation) {
    && |later.given| == |earlier.given|
    && earlier.left <= later.left
    && forall k :: 0 <= k < |earlier.given| ==> earlier.given[k] <= later.given[k]
  }

  lemma {:induction false} FillProlongs(st: Allocation, items: seq<WorkItem>)
    requires |st.auditors| == |st.given|
    ensures Prolongs(Fill(st, items), st)
  {
    if items != [] {
      FillProlongs(st, items[..|items| - 1]);
    }
  }

  /** Adding items that rank below all others changes nothing of what the others got. */
  lemma LowerPriorityChangesNothing(items: seq<WorkItem>, extra: seq<WorkItem>, auditors: seq<Auditor>)
    requires items != [] && auditors != []
    requires forall x, y :: x in items && y in extra ==> RiskLeq(x, y)
    ensures Allocate(items + extra, auditors) == Fill(Allocate(items, auditors), Sort(RiskLeq, extra))
    ensures Prolongs(Allocate(items + extra, auditors), Allocate(items, auditors))
  {
    OrdersAreTotal();
    SortIsSortedPermutation(RiskLeq, items);
    SameMembers(Sort(RiskLeq, items), items);
    SortAppends(RiskLeq, items, extra);
    FillSplit(Start(auditors), Sort(RiskLeq, items), Sort(RiskLeq, extra));
    FillProlongs(Allocate(items, auditors), Sort(RiskLeq, extra));
  }

  // ---- The assignment map ----

  ghost predicate DistinctIds(items: seq<WorkItem>) {
    forall i, j :: 0 <= i < j < |items| ==> items[i].itemId != items[j].itemId
  }

  /** The map sends every item given to its auditor, and knows no item left. */
  ghost predicate Mapped(st: Allocation, items: seq<WorkItem>) {
    && |st.auditors| == |st.given|
    && (forall k, i :: 0 <= k < |st.given| && i in st.given[k] ==>
          i in items && i.itemId in st.assignments && st.assignments[i.itemId] == st.auditors[k].auditorId)
    && (forall i :: i in st.left ==> i in items && i.itemId !in st.assignments)
    && (forall id :: id in st.assignments ==> exists i :: i in items && i.itemId == id)
  }

  lemma {:induction false} FillMaps(auditors: seq<Auditor>, items: seq<WorkItem>)
    requires DistinctIds(items)
    ensures Mapped(Fill(Start(auditors), items), items)
  {
    if items != [] {
      var front, last := items[..|items| - 1], items[|items| - 1];
      FillMaps(auditors, front);
      assert items == front + [last];
      assert forall i :: i in front ==> i.itemId != last.itemId;
      var st := Fill(Start(auditors), front);
      match Choose(st.auditors, last) {
        case Some(k) => PlaceMaps(st, front, last, k);
        case None => SkipMaps(st, front, last);
      }
    }
  }

  lemma PlaceMaps(st: Allocation, items: seq<WorkItem>, item: WorkItem, k: nat)
    requires Mapped(st, items) && k < |st.auditors|
    requires forall i :: i in items ==> i.itemId != item.itemId
    ensures Mapped(Place(st, item, k), items + [item])
  {
    assert item in items + [item];
    forall id | id in Place(st, item, k).assignments
      ensures exists i :: i in items + [item] && i.itemId == id
    {
      if id != item.itemId {
        var i :| i in items && i.itemId == id;
        assert i in items + [item];
      }
    }
  }

  lemma SkipMaps(st: Allocation, items: seq<WorkItem>, item: WorkItem)
    requires Mapped(st, items)
    requires forall i :: i in items ==> i.itemId != item.itemId
    ensures Mapped(Skip(st, item), items + [item])
  {
    forall id | id in st.assignments
      ensures id != item.itemId && exists i :: i in items + [item] && i.itemId == id
    {
      var i :| i in items && i.itemId == id;
      assert i in items + [item];
    }
  }

  /** An allocation maps every item given, and only those, to its auditor. */
  lemma AllocationMaps(items: seq<WorkItem>, auditors: seq<Auditor>)
    requires DistinctIds(items)
    ensures Mapped(Allocate(items, auditors), items)
  {
    OrdersAreTotal();
    SortIsSortedPermutation(RiskLeq, items);
    SameMembers(Sort(RiskLeq, items), items);
    SortKeepsDistinctIds(items, Sort(RiskLeq, items));
    FillMaps(auditors, Sort(RiskLeq, items));
    MappedPermutes(Allocate(items, auditors), Sort(RiskLeq, items), items);
  }

  lemma MappedPermutes(st: Allocation, a: seq<WorkItem>, b: seq<WorkItem>)
    requires Mapped(st, a) && forall i :: i in a <==> i in b
    ensures Mapped(st, b)
  {
  }

  lemma SortKeepsDistinctIds(items: seq<WorkItem>, sorted: seq<WorkItem>)
    requires DistinctIds(items) && multiset(items) == multiset(sorted)
    ensures DistinctIds(sorted)
  {
    SameMembers(items, sorted);
    forall i, j | 0 <= i < j < |sorted|
      ensures sorted[i].itemId != sorted[j].itemId
    {
      assert sorted[i] in items && sorted[j] in items;
      var k :| 0 <= k < |items| && items[k] == sorted[i];
      OccursOnce(items, k);
      WithoutOne(sorted, i);
      var rest := sorted[..i] + sorted[i + 1..];
      assert rest[j - 1] == sorted[j] && sorted[j] in multiset(rest);
    }
  }

  /** All items are accounted for exactly when there is somebody to allocate to or nothing
      to allocate: an empty team returns before any item is recorded as unassigned. */
  lemma AllReportedIff(items: seq<WorkItem>, auditors: seq<Auditor>)
    ensures multiset(items) == Pool(Allocate(items, auditors).given) + multiset(Allocate(items, auditors).left)
      <==> items == [] || auditors != []
  {
    if items == [] || auditors != [] {
      BooksBalance(items, auditors);
    } else {
      EmptyBooks(auditors, Start(auditors).given);
      assert items[0] in multiset(items);
    }
  }
}
