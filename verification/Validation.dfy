/** Boundary validation of a scope document (engine/scope/validation.py). The rules only
    read the DAG, so they take the document as a value; a result is its violation list. */
module Validation {
  import opened Common
  import opened Graphs
  import opened Scope

  datatype ValidationCode = OrphanNode | ParentOutOfScope | MissingCoverage | NoEvidenceSource

  datatype Violation = Violation(code: ValidationCode, nodeId: Option<Uuid>, controlId: string)

  // ---- What each rule reports ----

  predicate IsInScope(s: Scope, id: Uuid) {
    id in s.nodes && s.nodes[id].boundary.InScope?
  }

  predicate IsOutOfScope(s: Scope, id: Uuid) {
    id in s.nodes && s.nodes[id].boundary.OutOfScope?
  }

  predicate IsOrphan(s: Scope, id: Uuid) {
    IsInScope(s, id) && s.nodes[id].parentIds != [] && forall p :: p in s.nodes[id].parentIds ==> IsOutOfScope(s, p)
  }

  function About(code: ValidationCode, n: Node): Violation {
    Violation(code, Some(n.nodeId), n.controlId)
  }

  function OrphanReport(s: Scope, ids: seq<Uuid>): seq<Violation> {
    if ids == [] then []
    else
      var id := ids[|ids| - 1];
      OrphanReport(s, ids[..|ids| - 1]) + if IsOrphan(s, id) then [About(OrphanNode, s.nodes[id])] else []
  }

  function ParentReport(s: Scope, n: Node, parents: seq<Uuid>): seq<Violation> {
    if parents == [] then []
    else
      ParentReport(s, n, parents[..|parents| - 1])
      + if IsOutOfScope(s, parents[|parents| - 1]) then [About(ParentOutOfScope, n)] else []
  }

  function ConsistencyReport(s: Scope, ids: seq<Uuid>): seq<Violation> {
    if ids == [] then []
    else
      var id := ids[|ids| - 1];
      ConsistencyReport(s, ids[..|ids| - 1])
      + if IsInScope(s, id) then ParentReport(s, s.nodes[id], s.nodes[id].parentIds) else []
  }

  function EvidenceReport(s: Scope, evidence: map<string, seq<string>>, ids: seq<Uuid>): seq<Violation> {
    if ids == [] then []
    else
      var id := ids[|ids| - 1];
      EvidenceReport(s, evidence, ids[..|ids| - 1])
      + if IsInScope(s, id) && !HasEvidence(evidence, s.nodes[id].controlId)
        then [About(NoEvidenceSource, s.nodes[id])] else []
  }

  predicate HasEvidence(evidence: map<string, seq<string>>, controlId: string) {
    controlId in evidence && evidence[controlId] != []
  }

  ghost predicate Covered(s: Scope, controlId: string) {
    exists id :: IsInScope(s, id) && s.nodes[id].controlId == controlId
  }

  // ---- The validators ----

  /** No look-up of a node or of a parent raises. */
  ghost predicate Lookups(s: Scope) {
    && (forall k :: 0 <= k < |s.order| ==> s.order[k] in s.nodes)
    && (forall id, p :: id in s.nodes && p in s.nodes[id].parentIds ==> p in s.nodes)
  }

  lemma LookupsNeverRaise(s: Scope)
    requires Consistent(s)
    ensures Lookups(s)
  {
    ParentsExist(s);
    assert forall k :: 0 <= k < |s.order| ==> s.order[k] in SetOf(s.order);
  }

  method ValidateNoOrphans(s: Scope) returns (result: seq<Violation>)
    requires Lookups(s)
    ensures result == OrphanReport(s, s.order)
  {
    result := [];
    for k := 0 to |s.order|
      invariant result == OrphanReport(s, s.order[..k])
    {
      var node := NodeAt(s, k);
      assert s.order[..k + 1][..k] == s.order[..k];
      if node.boundary.InScope? && node.parentIds != [] {
        var excluded := AllOutOfScope(s, node.parentIds);
        if excluded {
          result := result + [About(OrphanNode, node)];
        }
      }
    }
    assert s.order[..|s.order|] == s.order;
  }

  method AllOutOfScope(s: Scope, ids: seq<Uuid>) returns (all: bool)
    requires forall p :: p in ids ==> p in s.nodes
    ensures all <==> forall p :: p in ids ==> IsOutOfScope(s, p)
  {
    for j := 0 to |ids|
      invariant forall p :: p in ids[..j] ==> IsOutOfScope(s, p)
    {
      assert ids[j] in ids && ids[..j + 1] == ids[..j] + [ids[j]];
      if !s.nodes[ids[j]].boundary.OutOfScope? {
        return false;
      }
    }
    assert ids[..|ids|] == ids;
    all := true;
  }

  function NodeAt(s: Scope, k: nat): (n: Node)
    requires Lookups(s) && k < |s.order|
    ensures s.order[k] in s.nodes && n == s.nodes[s.order[k]]
    ensures forall p :: p in n.parentIds ==> p in s.nodes
  {
    s.nodes[s.order[k]]
  }

  method ValidateParentConsistency(s: Scope) returns (result: seq<Violation>)
    requires Lookups(s)
    ensures result == ConsistencyReport(s, s.order)
  {
    result := [];
    for k := 0 to |s.order|
      invariant result == ConsistencyReport(s, s.order[..k])
    {
      var node := NodeAt(s, k);
      assert s.order[..k + 1][..k] == s.order[..k];
      if node.boundary.InScope? {
        ghost var before := result;
        for j := 0 to |node.parentIds|
          invariant result == before + ParentReport(s, node, node.parentIds[..j])
        {
          assert node.parentIds[..j + 1][..j] == node.parentIds[..j];
          if s.nodes[node.parentIds[j]].boundary.OutOfScope? {
            result := result + [About(ParentOutOfScope, node)];
          }
        }
        assert node.parentIds[..|node.parentIds|] == node.parentIds;
      }
    }
    assert s.order[..|s.order|] == s.order;
  }

  ghost predicate IsGap(s: Scope, required: set<string>, v: Violation) {
    v.code == MissingCoverage && v.nodeId == None && v.controlId in required && !Covered(s, v.controlId)
  }

  method ValidateCoverage(s: Scope, required: set<string>) returns (result: seq<Violation>)
    requires Lookups(s)
    ensures forall v :: v in result <==> IsGap(s, required, v)
    ensures forall i, j :: 0 <= i < j < |result| ==> result[i] != result[j]
    ensures result == [] <==> forall c :: c in required ==> Covered(s, c)
  {
    var inScope: set<string> := set id | id in s.nodes && IsInScope(s, id) :: s.nodes[id].controlId;
    result := [];
    var todo := required;
    while todo != {}
      invariant todo <= required
      invariant forall v :: v in result <==> IsGap(s, required - todo, v)
      invariant forall i, j :: 0 <= i < j < |result| ==> result[i] != result[j]
    {
      var c :| c in todo;
      assert !IsGap(s, required - todo, Violation(MissingCoverage, None, c));
      assert Violation(MissingCoverage, None, c) !in result;
      todo := todo - {c};
      if c !in inScope {
        result := result + [Violation(MissingCoverage, None, c)];
      }
    }
    assert required - todo == required;
    GapsEmptyIff(s, required, result);
  }

  method ValidateEvidenceMapping(s: Scope, evidence: map<string, seq<string>>) returns (result: seq<Violation>)
    requires Lookups(s)
    ensures result == EvidenceReport(s, evidence, s.order)
  {
    result := [];
    for k := 0 to |s.order|
      invariant result == EvidenceReport(s, evidence, s.order[..k])
    {
      var node := NodeAt(s, k);
      assert s.order[..k + 1][..k] == s.order[..k];
      if node.boundary.InScope? && !HasEvidence(evidence, node.controlId) {
        result := result + [About(NoEvidenceSource, node)];
      }
    }
    assert s.order[..|s.order|] == s.order;
  }

  /** Passes exactly when no in-scope control has an out-of-scope parent, every required
      control is covered and every in-scope control has evidence (where asked for). */
  method ValidateDagBoundaries(s: Scope, required: Option<set<string>>, evidence: Option<map<string, seq<string>>>)
    returns (combined: seq<Violation>, gaps: seq<Violation>)
    requires Consistent(s)
    ensures combined == OrphanReport(s, s.order) + ConsistencyReport(s, s.order) + gaps
      + if evidence.Some? then EvidenceReport(s, evidence.value, s.order) else []
    ensures forall v :: v in gaps <==> required.Some? && IsGap(s, required.value, v)
    ensures forall i, j :: 0 <= i < j < |gaps| ==> gaps[i] != gaps[j]
    ensures combined == [] <==>
      && ParentsNotExcluded(s)
      && (required.Some? ==> forall c :: c in required.value ==> Covered(s, c))
      && (evidence.Some? ==> EvidenceMapped(s, evidence.value))
  {
    combined := BoundaryRules(s);
    gaps := CoverageRule(s, required);
    var mapping := EvidenceRule(s, evidence);
    combined := combined + gaps + mapping;
  }

  method CoverageRule(s: Scope, required: Option<set<string>>) returns (gaps: seq<Violation>)
    requires Consistent(s)
    ensures forall v :: v in gaps <==> required.Some? && IsGap(s, required.value, v)
    ensures forall i, j :: 0 <= i < j < |gaps| ==> gaps[i] != gaps[j]
    ensures gaps == [] <==> (required.Some? ==> forall c :: c in required.value ==> Covered(s, c))
  {
    gaps := [];
    if required.Some? {
      LookupsNeverRaise(s);
      gaps := ValidateCoverage(s, required.value);
    }
  }

  method EvidenceRule(s: Scope, evidence: Option<map<string, seq<string>>>) returns (mapping: seq<Violation>)
    requires Consistent(s)
    ensures mapping == if evidence.Some? then EvidenceReport(s, evidence.value, s.order) else []
    ensures mapping == [] <==> (evidence.Some? ==> EvidenceMapped(s, evidence.value))
  {
    mapping := [];
    if evidence.Some? {
      LookupsNeverRaise(s);
      AllListed(s);
      EvidenceReportEmptyIff(s, evidence.value, s.order);
      mapping := ValidateEvidenceMapping(s, evidence.value);
    }
  }

  method BoundaryRules(s: Scope) returns (combined: seq<Violation>)
    requires Consistent(s)
    ensures combined == OrphanReport(s, s.order) + ConsistencyReport(s, s.order)
    ensures combined == [] <==> ParentsNotExcluded(s)
  {
    LookupsNeverRaise(s);
    BoundaryReportsEmptyIff(s);
    var orphans := ValidateNoOrphans(s);
    var parents := ValidateParentConsistency(s);
    combined := orphans + parents;
  }

  // ---- What passing means ----

  ghost predicate ParentsNotExcluded(s: Scope) {
    forall id, p :: IsInScope(s, id) && p in s.nodes[id].parentIds ==> !IsOutOfScope(s, p)
  }

  ghost predicate EvidenceMapped(s: Scope, evidence: map<string, seq<string>>) {
    forall id :: IsInScope(s, id) ==> HasEvidence(evidence, s.nodes[id].controlId)
  }

  lemma AllListed(s: Scope)
    requires Consistent(s)
    ensures forall id :: id in s.nodes <==> id in s.order
  {
    assert forall id :: id in s.nodes <==> id in SetOf(s.order);
  }

  lemma GapsEmptyIff(s: Scope, required: set<string>, gaps: seq<Violation>)
    requires forall v :: v in gaps <==> IsGap(s, required, v)
    ensures gaps == [] <==> forall c :: c in required ==> Covered(s, c)
  {
    if c :| c in required && !Covered(s, c) {
      assert IsGap(s, required, Violation(MissingCoverage, None, c));
    }
    if gaps != [] {
      assert gaps[0] in gaps;
    }
  }

  // ---- What is in a report ----

  ghost predicate IsOrphanViolation(s: Scope, ids: seq<Uuid>, v: Violation) {
    exists id :: id in ids && IsOrphan(s, id) && v == About(OrphanNode, s.nodes[id])
  }

  ghost predicate HasExcludedParent(s: Scope, id: Uuid) {
    IsInScope(s, id) && exists p :: p in s.nodes[id].parentIds && IsOutOfScope(s, p)
  }

  ghost predicate IsParentViolation(s: Scope, ids: seq<Uuid>, v: Violation) {
    exists id :: id in ids && HasExcludedParent(s, id) && v == About(ParentOutOfScope, s.nodes[id])
  }

  predicate LacksEvidence(s: Scope, evidence: map<string, seq<string>>, id: Uuid) {
    IsInScope(s, id) && !HasEvidence(evidence, s.nodes[id].controlId)
  }

  ghost predicate IsEvidenceViolation(s: Scope, evidence: map<string, seq<string>>, ids: seq<Uuid>, v: Violation) {
    exists id :: id in ids && LacksEvidence(s, evidence, id) && v == About(NoEvidenceSource, s.nodes[id])
  }

  /** The orphan rule reports exactly the orphans. */
  lemma {:induction false} OrphanReportHolds(s: Scope, ids: seq<Uuid>, v: Violation)
    ensures v in OrphanReport(s, ids) <==> IsOrphanViolation(s, ids, v)
  {
    if ids != [] {
      var k := |ids| - 1;
      OrphanReportHolds(s, ids[..k], v);
      assert ids == ids[..k] + [ids[k]];
    }
  }

  lemma {:induction false} ParentReportHolds(s: Scope, n: Node, parents: seq<Uuid>, v: Violation)
    ensures v in ParentReport(s, n, parents) <==>
      v == About(ParentOutOfScope, n) && exists p :: p in parents && IsOutOfScope(s, p)
  {
    if parents != [] {
      var k := |parents| - 1;
      ParentReportHolds(s, n, parents[..k], v);
      assert parents == parents[..k] + [parents[k]];
    }
  }

  /** The parent rule reports exactly the in-scope nodes with an out-of-scope parent. */
  lemma {:induction false} ConsistencyReportHolds(s: Scope, ids: seq<Uuid>, v: Violation)
    ensures v in ConsistencyReport(s, ids) <==> IsParentViolation(s, ids, v)
  {
    if ids != [] {
      var k := |ids| - 1;
      ConsistencyReportHolds(s, ids[..k], v);
      assert ids == ids[..k] + [ids[k]];
      if IsInScope(s, ids[k]) {
        ParentReportHolds(s, s.nodes[ids[k]], s.nodes[ids[k]].parentIds, v);
      }
    }
  }

  /** The evidence rule reports exactly the in-scope nodes without evidence. */
  lemma {:induction false} EvidenceReportHolds(s: Scope, evidence: map<string, seq<string>>, ids: seq<Uuid>,
                                               v: Violation)
    ensures v in EvidenceReport(s, evidence, ids) <==> IsEvidenceViolation(s, evidence, ids, v)
  {
    if ids != [] {
      var k := |ids| - 1;
      EvidenceReportHolds(s, evidence, ids[..k], v);
      assert ids == ids[..k] + [ids[k]];
    }
  }

  lemma OrphanReportEmptyIff(s: Scope, ids: seq<Uuid>)
    ensures OrphanReport(s, ids) == [] <==> forall id :: id in ids ==> !IsOrphan(s, id)
  {
    if id :| id in ids && IsOrphan(s, id) {
      OrphanReportHolds(s, ids, About(OrphanNode, s.nodes[id]));
    }
    if OrphanReport(s, ids) != [] {
      OrphanReportHolds(s, ids, OrphanReport(s, ids)[0]);
    }
  }

  lemma ConsistencyReportEmptyIff(s: Scope, ids: seq<Uuid>)
    ensures ConsistencyReport(s, ids) == [] <==> forall id :: id in ids ==> !HasExcludedParent(s, id)
  {
    if id :| id in ids && HasExcludedParent(s, id) {
      ConsistencyReportHolds(s, ids, About(ParentOutOfScope, s.nodes[id]));
    }
    if ConsistencyReport(s, ids) != [] {
      ConsistencyReportHolds(s, ids, ConsistencyReport(s, ids)[0]);
    }
  }

  lemma EvidenceReportEmptyIff(s: Scope, evidence: map<string, seq<string>>, ids: seq<Uuid>)
    ensures EvidenceReport(s, evidence, ids) == [] <==> forall id :: id in ids ==> !LacksEvidence(s, evidence, id)
  {
    if id :| id in ids && LacksEvidence(s, evidence, id) {
      EvidenceReportHolds(s, evidence, ids, About(NoEvidenceSource, s.nodes[id]));
    }
    if EvidenceReport(s, evidence, ids) != [] {
      EvidenceReportHolds(s, evidence, ids, EvidenceReport(s, evidence, ids)[0]);
    }
  }

  /** The two boundary rules pass together exactly when no in-scope control has an
      out-of-scope parent: the orphan rule adds no failure of its own. */
  lemma BoundaryReportsEmptyIff(s: Scope)
    requires Consistent(s)
    ensures OrphanReport(s, s.order) + ConsistencyReport(s, s.order) == [] <==> ParentsNotExcluded(s)
  {
    OrphanReportEmptyIff(s, s.order);
    ConsistencyReportEmptyIff(s, s.order);
    AllListed(s);
    assert ParentsNotExcluded(s) <==> forall id :: id in s.order ==> !HasExcludedParent(s, id);
    forall id | IsOrphan(s, id)
      ensures !ParentsNotExcluded(s)
    {
      assert s.nodes[id].parentIds[0] in s.nodes[id].parentIds;
    }
  }

  ghost predicate AncestorClosed(s: Scope) {
    forall a, n :: IsInScope(s, n) && Reaches(s.children, a, n) ==> IsInScope(s, a)
  }

  /** No in-scope control has a CONDITIONAL parent; the rules do not look at this. */
  ghost predicate NoConditionalParent(s: Scope) {
    forall id, p :: IsInScope(s, id) && p in s.nodes[id].parentIds && p in s.nodes ==> !s.nodes[p].boundary.Conditional?
  }

  /** Passing the boundary rules puts every ancestor of an in-scope control in scope exactly
      when no in-scope control has a CONDITIONAL parent; and nothing else does. */
  lemma AncestorsInScopeIff(s: Scope)
    requires Consistent(s)
    ensures AncestorClosed(s) <==>
      OrphanReport(s, s.order) + ConsistencyReport(s, s.order) == [] && NoConditionalParent(s)
  {
    BoundaryReportsEmptyIff(s);
    ParentsExist(s);
    if ParentsNotExcluded(s) && NoConditionalParent(s) {
      forall a, n | IsInScope(s, n) && Reaches(s.children, a, n)
        ensures IsInScope(s, a)
      {
        var p :| IsPathBetween(s.children, p, a, n);
        InScopeUpPath(s, p);
      }
      assert AncestorClosed(s);
    }
    if AncestorClosed(s) {
      forall id, p | IsInScope(s, id) && p in s.nodes[id].parentIds && p in s.nodes
        ensures s.nodes[p].boundary.InScope?
      {
        assert id in s.children[p];
        assert IsPathBetween(s.children, [p, id], p, id);
        assert Reaches(s.children, p, id) && IsInScope(s, p);
      }
    }
  }

  lemma {:induction false} InScopeUpPath(s: Scope, p: seq<Uuid>)
    requires Consistent(s) && ParentsNotExcluded(s) && NoConditionalParent(s)
    requires IsPath(s.children, p) && IsInScope(s, p[|p| - 1])
    ensures IsInScope(s, p[0])
  {
    if |p| > 1 {
      var tail := p[1..];
      InScopeUpPath(s, tail);
      assert p[1] in Kids(s.children, p[0]);
      assert p[0] in s.nodes[p[1]].parentIds && p[0] in s.nodes;
      assert !IsOutOfScope(s, p[0]);
      assert !s.nodes[p[0]].boundary.Conditional?;
    }
  }

  /** Such a document passes: control 2 is in scope, its parent 1 only conditionally. */
  lemma ConditionalParentPasses() returns (s: Scope)
    ensures Consistent(s) && OrphanReport(s, s.order) + ConsistencyReport(s, s.order) == []
    ensures !AncestorClosed(s)
  {
    var a, b := Node(1, "a", 1.0, [], Conditional), Node(2, "b", 1.0, [1], InScope);
    s := TwoNodes(a, b);
    BoundaryReportsEmptyIff(s);
    AncestorsInScopeIff(s);
    assert IsInScope(s, 2) && 1 in s.nodes[2].parentIds && s.nodes[1].boundary.Conditional?;
  }
}
