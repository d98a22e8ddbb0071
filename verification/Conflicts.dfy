/** Conflicting evidence: detection between all pairs and resolution (engine/quality/conflict_resolver.py). */
module Conflicts {
  import opened Common
  import opened Sampler

  datatype ConflictType = PassFailDisagreement | QualityVariance

  datatype Conflict = Conflict(evidenceA: Uuid, evidenceB: Uuid, kind: ConflictType, tierA: int, tierB: int,
                               qualityA: real, qualityB: real, preferred: Uuid, flagged: Uuid)

  function Strength(i: QualityInput): real {
    if TierWeight(i.tier).Some? then TierWeight(i.tier).value else 0.0
  }

  /** The stronger item; the first wins an exact tie. */
  function Prefer(a: QualityInput, b: QualityInput): QualityInput {
    if Strength(a) > Strength(b) then a
    else if Strength(b) > Strength(a) then b
    else if a.quality >= b.quality then a else b
  }

  function KindOf(a: QualityInput, b: QualityInput, threshold: real): Option<ConflictType> {
    var gap := if a.quality >= b.quality then a.quality - b.quality else b.quality - a.quality;
    if a.passes != b.passes then Some(PassFailDisagreement)
    else if gap >= threshold then Some(QualityVariance)
    else None
  }

  function Between(a: QualityInput, b: QualityInput, threshold: real): seq<Conflict> {
    var kind := KindOf(a, b, threshold);
    if kind.None? then []
    else
      var winner := Prefer(a, b);
      var loser := if winner.evidenceId == a.evidenceId then b else a;
      [Conflict(a.evidenceId, b.evidenceId, kind.value, a.tier, b.tier, a.quality, b.quality,
                winner.evidenceId, loser.evidenceId)]
  }

  function Flatten(lists: seq<seq<Conflict>>): seq<Conflict> {
    if lists == [] then [] else Flatten(lists[..|lists| - 1]) + lists[|lists| - 1]
  }

  /** The conflicts of item `i` with each item after it. */
  function RowOf(items: seq<QualityInput>, threshold: real, i: nat): (row: seq<seq<Conflict>>)
    requires i < |items|
    ensures |row| == |items| - i - 1 && forall d :: 0 <= d < |row| ==>
      row[d] == Between(items[i], items[i + 1 + d], threshold)
  {
    seq(|items| - i - 1, d requires 0 <= d < |items| - i - 1 => Between(items[i], items[i + 1 + d], threshold))
  }

  function Rows(items: seq<QualityInput>, threshold: real): (rows: seq<seq<Conflict>>)
    ensures |rows| == |items| && forall i :: 0 <= i < |rows| ==> rows[i] == Flatten(RowOf(items, threshold, i))
  {
    seq(|items|, i requires 0 <= i < |items| => Flatten(RowOf(items, threshold, i)))
  }

  /** The conflicts of all pairs, in index order. */
  function ConflictsOf(items: seq<QualityInput>, threshold: real): seq<Conflict> {
    Flatten(Rows(items, threshold))
  }

  lemma FlattenNext(lists: seq<seq<Conflict>>, k: nat)
    requires k < |lists|
    ensures Flatten(lists[..k + 1]) == Flatten(lists[..k]) + lists[k]
  {
    assert lists[..k + 1][..k] == lists[..k];
  }

  method DetectConflicts(items: seq<QualityInput>, threshold: real) returns (conflicts: seq<Conflict>)
    ensures conflicts == ConflictsOf(items, threshold)
  {
    conflicts := [];
    ghost var rows := Rows(items, threshold);
    for i := 0 to |items|
      invariant conflicts == Flatten(rows[..i])
    {
      FlattenNext(rows, i);
      var row := DetectRow(items, threshold, i);
      conflicts := conflicts + row;
    }
    assert rows[..|items|] == rows;
  }

  /** The inner loop. */
  method DetectRow(items: seq<QualityInput>, threshold: real, i: nat) returns (conflicts: seq<Conflict>)
    requires i < |items|
    ensures conflicts == Flatten(RowOf(items, threshold, i))
  {
    conflicts := [];
    ghost var row := RowOf(items, threshold, i);
    for j := i + 1 to |items|
      invariant conflicts == Flatten(row[..j - i - 1])
    {
      FlattenNext(row, j - i - 1);
      var found := Between(items[i], items[j], threshold);
      assert row[j - i - 1] == found;
      conflicts := conflicts + found;
    }
    assert row[..|items| - i - 1] == row;
  }

  function Flagged(conflicts: seq<Conflict>): set<Uuid> {
    set c | c in conflicts :: c.flagged
  }

  function Unflagged(items: seq<QualityInput>, flagged: set<Uuid>): seq<QualityInput> {
    if items == [] then []
    else
      Unflagged(items[..|items| - 1], flagged)
      + if items[|items| - 1].evidenceId in flagged then [] else [items[|items| - 1]]
  }

  /** The accepted items: those flagged in no conflict. */
  function Accepted(items: seq<QualityInput>, threshold: real): seq<QualityInput> {
    Unflagged(items, Flagged(ConflictsOf(items, threshold)))
  }

  method ResolveConflicts(items: seq<QualityInput>, threshold: real)
    returns (conflicts: seq<Conflict>, flagged: set<Uuid>, accepted: seq<QualityInput>)
    ensures conflicts == ConflictsOf(items, threshold) && flagged == Flagged(conflicts)
    ensures accepted == Accepted(items, threshold)
  {
    conflicts := DetectConflicts(items, threshold);
    flagged := Flagged(conflicts);
    accepted := Unflagged(items, flagged);
  }

  // ---- Which conflicts there are ----

  lemma {:induction false} InFlatten(lists: seq<seq<Conflict>>, c: Conflict)
    ensures c in Flatten(lists) <==> exists i :: 0 <= i < |lists| && c in lists[i]
  {
    if lists != [] {
      var n := |lists| - 1;
      InFlatten(lists[..n], c);
      assert c in Flatten(lists) <==> c in Flatten(lists[..n]) || c in lists[n];
    }
  }

  predicate IsBetween(items: seq<QualityInput>, threshold: real, i: nat, j: nat, c: Conflict)
    requires i < |items| && j < |items|
  {
    c in Between(items[i], items[j], threshold)
  }

  ghost predicate IsConflict(items: seq<QualityInput>, threshold: real, c: Conflict) {
    exists i, j :: 0 <= i < j < |items| && IsBetween(items, threshold, i, j, c)
  }

  /** A conflict is listed exactly when some pair of items has it. */
  lemma ListedIff(items: seq<QualityInput>, threshold: real, c: Conflict)
    ensures c in ConflictsOf(items, threshold) <==> IsConflict(items, threshold, c)
  {
    var rows := Rows(items, threshold);
    InFlatten(rows, c);
    if i :| 0 <= i < |rows| && c in rows[i] {
      InFlatten(RowOf(items, threshold, i), c);
      var d :| 0 <= d < |items| - i - 1 && c in RowOf(items, threshold, i)[d];
      assert IsBetween(items, threshold, i, i + 1 + d, c);
    }
    if i, j :| 0 <= i < j < |items| && IsBetween(items, threshold, i, j, c) {
      InFlatten(RowOf(items, threshold, i), c);
      assert c in RowOf(items, threshold, i)[j - i - 1];
      assert c in rows[i];
    }
  }

  // ---- The order behind the preference ----

  ghost predicate DistinctIds(items: seq<QualityInput>) {
    forall i, j :: 0 <= i < j < |items| ==> items[i].evidenceId != items[j].evidenceId
  }

  /** Item `i` wins against item `j`: higher tier, then higher quality, then earlier. */
  predicate Beats(items: seq<QualityInput>, i: nat, j: nat)
    requires i < |items| && j < |items|
  {
    var a, b := items[i], items[j];
    Strength(a) > Strength(b)
    || (Strength(a) == Strength(b) && (a.quality > b.quality || (a.quality == b.quality && i < j)))
  }

  ghost predicate IsStrongest(items: seq<QualityInput>, s: nat) {
    s < |items| && forall k :: 0 <= k < |items| && k != s ==> Beats(items, s, k)
  }

  lemma {:induction false} StrongestExists(items: seq<QualityInput>) returns (s: nat)
    requires items != []
    ensures IsStrongest(items, s)
  {
    var n := |items| - 1;
    if n == 0 {
      s := 0;
    } else {
      var front := items[..n];
      var t := StrongestExists(front);
      s := if Beats(items, t, n) then t else n;
      forall k | 0 <= k < |items| && k != s
        ensures Beats(items, s, k)
      {
        assert k < n && k != t ==> Beats(front, t, k);
      }
    }
  }

  ghost predicate Loses(items: seq<QualityInput>, threshold: real, k: nat)
    requires k < |items|
  {
    exists m :: 0 <= m < |items| && m != k && KindOf(items[m], items[k], threshold).Some? && Beats(items, m, k)
  }

  /** Some item with this id conflicts with one that beats it. */
  ghost predicate LosesId(items: seq<QualityInput>, threshold: real, id: Uuid) {
    exists k :: 0 <= k < |items| && items[k].evidenceId == id && Loses(items, threshold, k)
  }

  /** An id is flagged exactly when an item that carries it conflicts with one that beats it. */
  lemma FlaggedIff(items: seq<QualityInput>, threshold: real, id: Uuid)
    ensures id in Flagged(ConflictsOf(items, threshold)) <==> LosesId(items, threshold, id)
  {
    var conflicts := ConflictsOf(items, threshold);
    if id in Flagged(conflicts) {
      var c :| c in conflicts && c.flagged == id;
      ListedIff(items, threshold, c);
      var i, j :| 0 <= i < j < |items| && IsBetween(items, threshold, i, j, c);
      LoserLoses(items, threshold, i, j);
      assert Loses(items, threshold, if Beats(items, i, j) then j else i);
    }
    if LosesId(items, threshold, id) {
      var k :| 0 <= k < |items| && items[k].evidenceId == id && Loses(items, threshold, k);
      var m :| 0 <= m < |items| && m != k && KindOf(items[m], items[k], threshold).Some? && Beats(items, m, k);
      var i, j := if m < k then m else k, if m < k then k else m;
      LoserLoses(items, threshold, i, j);
      var c := Between(items[i], items[j], threshold)[0];
      assert IsBetween(items, threshold, i, j, c);
      ListedIff(items, threshold, c);
    }
  }

  /** The conflict between two items flags the one the other beats. */
  lemma LoserLoses(items: seq<QualityInput>, threshold: real, i: nat, j: nat)
    requires i < j < |items|
    ensures Between(items[i], items[j], threshold) != [] <==> KindOf(items[i], items[j], threshold).Some?
    ensures KindOf(items[i], items[j], threshold) == KindOf(items[j], items[i], threshold)
    ensures forall c :: c in Between(items[i], items[j], threshold) ==>
      c.flagged == if Beats(items, i, j) then items[j].evidenceId else items[i].evidenceId
    ensures Beats(items, i, j) <==> !Beats(items, j, i)
  {
  }

  lemma {:induction false} UnflaggedHolds(items: seq<QualityInput>, flagged: set<Uuid>, x: QualityInput)
    ensures x in Unflagged(items, flagged) <==> x in items && x.evidenceId !in flagged
  {
    if items != [] {
      var n := |items| - 1;
      UnflaggedHolds(items[..n], flagged, x);
      assert items == items[..n] + [items[n]];
    }
  }

  /** Two accepted items stand at different places of the input, in the same order. */
  lemma {:induction false} UnflaggedKeepsOrder(items: seq<QualityInput>, flagged: set<Uuid>, i: nat, j: nat)
    returns (k: nat, m: nat)
    requires i < j < |Unflagged(items, flagged)|
    ensures k < m < |items| && items[k] == Unflagged(items, flagged)[i] && items[m] == Unflagged(items, flagged)[j]
  {
    var n := |items| - 1;
    var front := Unflagged(items[..n], flagged);
    if j < |front| {
      k, m := UnflaggedKeepsOrder(items[..n], flagged, i, j);
    } else {
      UnflaggedHolds(items[..n], flagged, front[i]);
      assert front[i] in front;
      k :| 0 <= k < n && items[..n][k] == front[i];
      m := n;
    }
  }

  lemma {:induction false} NothingFlagged(items: seq<QualityInput>)
    ensures Unflagged(items, {}) == items
  {
    if items != [] {
      NothingFlagged(items[..|items| - 1]);
      assert items == items[..|items| - 1] + [items[|items| - 1]];
    }
  }

  /** An item is accepted exactly when no item that carries its id loses. */
  lemma AcceptedIff(items: seq<QualityInput>, threshold: real, x: QualityInput)
    ensures x in Accepted(items, threshold) <==> x in items && !LosesId(items, threshold, x.evidenceId)
  {
    FlaggedIff(items, threshold, x.evidenceId);
    UnflaggedHolds(items, Flagged(ConflictsOf(items, threshold)), x);
  }

  // ---- What is accepted ----

  /** Every accepted item shares the verdict of the strongest, no two accepted items conflict,
      and resolving the accepted items again finds no conflict and accepts them all. The
      strongest item is itself accepted exactly when no namesake of it loses: always, if ids
      are distinct. */
  lemma AcceptedIsCoherent(items: seq<QualityInput>, threshold: real) returns (s: nat)
    requires items != []
    ensures IsStrongest(items, s)
    ensures items[s] in Accepted(items, threshold) <==> !LosesId(items, threshold, items[s].evidenceId)
    ensures DistinctIds(items) ==> items[s] in Accepted(items, threshold)
    ensures forall x :: x in Accepted(items, threshold) ==> x in items && x.passes == items[s].passes
    ensures ConflictsOf(Accepted(items, threshold), threshold) == []
    ensures Accepted(Accepted(items, threshold), threshold) == Accepted(items, threshold)
  {
    s := StrongestExists(items);
    AcceptedIff(items, threshold, items[s]);
    StrongestDoesNotLose(items, threshold, s);
    forall x | x in Accepted(items, threshold)
      ensures x in items && x.passes == items[s].passes
    {
      AcceptedIff(items, threshold, x);
      var k :| 0 <= k < |items| && items[k] == x;
      AcceptedShareVerdict(items, threshold, s, k);
    }
    NoConflictLeft(items, threshold);
    var accepted := Accepted(items, threshold);
    assert Flagged(ConflictsOf(accepted, threshold)) == {};
    NothingFlagged(accepted);
  }

  lemma StrongestDoesNotLose(items: seq<QualityInput>, threshold: real, s: nat)
    requires IsStrongest(items, s)
    ensures !Loses(items, threshold, s)
    ensures DistinctIds(items) ==> !LosesId(items, threshold, items[s].evidenceId)
  {
    assert forall m :: 0 <= m < |items| && m != s ==> Beats(items, s, m) && !Beats(items, m, s);
  }

  lemma AcceptedShareVerdict(items: seq<QualityInput>, threshold: real, s: nat, k: nat)
    requires IsStrongest(items, s) && k < |items| && items[k] in Accepted(items, threshold)
    ensures items[k].passes == items[s].passes
  {
    AcceptedIff(items, threshold, items[k]);
    assert !Loses(items, threshold, k);
    assert k != s ==> Beats(items, s, k);
  }

  lemma NoConflictLeft(items: seq<QualityInput>, threshold: real)
    ensures ConflictsOf(Accepted(items, threshold), threshold) == []
  {
    var accepted := Accepted(items, threshold);
    var again := ConflictsOf(accepted, threshold);
    forall i, j | 0 <= i < j < |accepted|
      ensures KindOf(accepted[i], accepted[j], threshold).None?
    {
      var k, m := UnflaggedKeepsOrder(items, Flagged(ConflictsOf(items, threshold)), i, j);
      assert accepted[i] in accepted && accepted[j] in accepted;
      AcceptedDoNotConflict(items, threshold, k, m);
    }
    if again != [] {
      ListedIff(accepted, threshold, again[0]);
    }
  }

  lemma AcceptedDoNotConflict(items: seq<QualityInput>, threshold: real, k: nat, m: nat)
    requires k < m < |items|
    requires items[k] in Accepted(items, threshold) && items[m] in Accepted(items, threshold)
    ensures KindOf(items[k], items[m], threshold).None?
  {
    AcceptedIff(items, threshold, items[k]);
    AcceptedIff(items, threshold, items[m]);
    LoserLoses(items, threshold, k, m);
    assert !Loses(items, threshold, k) && !Loses(items, threshold, m);
  }

  /** Ids matter: two items that share one and disagree are both dropped, although one of
      them is the strongest. */
  lemma SharedIdDropsBoth(a: QualityInput, b: QualityInput, threshold: real)
    requires a.evidenceId == b.evidenceId && a.passes != b.passes
    ensures Accepted([a, b], threshold) == []
  {
    var items := [a, b];
    var c := Between(a, b, threshold)[0];
    assert IsBetween(items, threshold, 0, 1, c);
    ListedIff(items, threshold, c);
    assert c in ConflictsOf(items, threshold) && c.flagged == a.evidenceId;
    var accepted := Accepted(items, threshold);
    if accepted != [] {
      UnflaggedHolds(items, Flagged(ConflictsOf(items, threshold)), accepted[0]);
    }
  }
}
