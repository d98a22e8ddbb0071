/** The scope document as a value: what each command of `AuditScopeDAG` does to it, and
    what holds in every run (engine/scope/dag.py). */
module Scope {
  import opened Common
  import opened Graphs

  datatype BoundaryStatus = InScope | OutOfScope | Conditional

  datatype ScopeState = Draft | Proposed | Approved | Locked

  datatype Node = Node(nodeId: Uuid, controlId: string, riskWeight: real, parentIds: seq<Uuid>,
                       boundary: BoundaryStatus)

  /** `order` is the insertion order of the node dictionary. */
  datatype Scope = Scope(state: ScopeState, order: seq<Uuid>, nodes: map<Uuid, Node>, children: Graph)

  datatype ScopeError = InvalidTransition | ScopeLocked | DuplicateNode | UnknownParent | UnknownNode

  datatype Command =
    | Transition(to: ScopeState)
    | AddNode(node: Node)
    | SetBoundary(id: Uuid, status: BoundaryStatus)

  const EMPTY := Scope(Draft, [], map[], map[])

  function Successors(s: ScopeState): set<ScopeState> {
    match s
    case Draft => {Proposed}
    case Proposed => {Approved, Draft}
    case Approved => {ScopeState.Locked, Proposed}
    case Locked => {}
  }

  function WithNode(children: Graph, id: Uuid): Graph {
    children[id := Kids(children, id)]
  }

  function WithChild(children: Graph, parents: seq<Uuid>, child: Uuid): Graph {
    map p | p in children :: if p in parents then children[p] + {child} else children[p]
  }

  function Apply(s: Scope, c: Command): Result<Scope, ScopeError> {
    match c
    case Transition(to) =>
      if to !in Successors(s.state) then Err(InvalidTransition) else Ok(s.(state := to))
    case AddNode(node) =>
      if s.state.Locked? then Err(ScopeLocked)
      else if node.nodeId in s.nodes then Err(DuplicateNode)
      else if exists p :: p in node.parentIds && p !in s.nodes then Err(UnknownParent)
      else Ok(s.(order := s.order + [node.nodeId],
                 nodes := s.nodes[node.nodeId := node],
                 children := WithChild(WithNode(s.children, node.nodeId), node.parentIds, node.nodeId)))
    case SetBoundary(id, status) =>
      if s.state.Locked? then Err(ScopeLocked)
      else if id !in s.nodes then Err(UnknownNode)
      else Ok(s.(nodes := s.nodes[id := s.nodes[id].(boundary := status)]))
  }

  /** A run: a command that raises leaves the document as it was. */
  function Run(s: Scope, cs: seq<Command>): Scope {
    if cs == [] then s
    else
      var before := Run(s, cs[..|cs| - 1]);
      match Apply(before, cs[|cs| - 1])
      case Ok(after) => after
      case Err(_) => before
  }

  // ---- The invariant of every run ----

  ghost predicate Consistent(s: Scope) {
    && Distinct(s.order)
    && SetOf(s.order) == s.nodes.Keys
    && s.children.Keys == s.nodes.Keys
    && (forall id :: id in s.nodes ==> s.nodes[id].nodeId == id)
    && ParentsPrecede(s)
    && ChildrenInvertParents(s)
  }

  ghost predicate ParentsPrecede(s: Scope) {
    forall i, p :: 0 <= i < |s.order| && s.order[i] in s.nodes && p in s.nodes[s.order[i]].parentIds
      ==> p in s.order[..i]
  }

  ghost predicate ChildrenInvertParents(s: Scope) {
    forall p, c :: p in s.children ==>
      (c in s.children[p] <==> c in s.nodes && p in s.nodes[c].parentIds)
  }

  /** In a consistent document the graph is acyclic: insertion order is topological. */
  lemma ConsistentIsAcyclic(s: Scope)
    requires Consistent(s)
    ensures Closed(s.children)
    ensures IsTopological(s.children, s.order)
    ensures Acyclic(s.children)
  {
    TopologicalIsAcyclic(s.children, s.order);
  }

  /** A topological order of the nodes lists every node once, after all its parents. */
  lemma TopologicalListsParentsFirst(s: Scope, ids: seq<Uuid>)
    requires Consistent(s) && IsTopological(s.children, ids)
    ensures |ids| == |s.order| && forall id :: id in ids <==> id in s.nodes
    ensures forall i, p :: 0 <= i < |ids| && p in s.nodes[ids[i]].parentIds ==> p in ids[..i]
  {
    DistinctSize(ids);
    DistinctSize(s.order);
    assert SetOf(ids) == SetOf(s.order) == s.nodes.Keys;
    forall id
      ensures id in ids <==> id in s.nodes
    {
      assert id in ids <==> id in SetOf(ids);
    }
    forall i, p | 0 <= i < |ids| && p in s.nodes[ids[i]].parentIds
      ensures p in ids[..i]
    {
      ParentsExist(s);
      assert p in s.children && ids[i] in s.children[p];
    }
  }

  lemma AddKeepsConsistent(s: Scope, node: Node)
    requires Consistent(s) && Apply(s, AddNode(node)).Ok?
    ensures Consistent(Apply(s, AddNode(node)).value)
  {
    var t := Apply(s, AddNode(node)).value;
    assert SetOf(t.order) == SetOf(s.order) + {node.nodeId};
    assert node.nodeId !in SetOf(s.order);
    AddKeepsOrder(s, node);
    ParentsExist(s);
    AddKeepsInverse(s, node);
  }

  lemma ParentsExist(s: Scope)
    requires Consistent(s)
    ensures forall c, p :: c in s.nodes && p in s.nodes[c].parentIds ==> p in s.nodes
  {
    forall c, p | c in s.nodes && p in s.nodes[c].parentIds
      ensures p in s.nodes
    {
      assert c in SetOf(s.order);
      var i := IndexOf(s.order, c);
      assert p in s.order[..i] && p in SetOf(s.order);
    }
  }

  lemma AddKeepsInverse(s: Scope, node: Node)
    requires s.children.Keys == s.nodes.Keys && ChildrenInvertParents(s)
    requires forall c, p :: c in s.nodes && p in s.nodes[c].parentIds ==> p in s.nodes
    requires Apply(s, AddNode(node)).Ok?
    ensures ChildrenInvertParents(Apply(s, AddNode(node)).value)
  {
    var id, t := node.nodeId, Apply(s, AddNode(node)).value;
    forall p, c | p in t.children
      ensures c in t.children[p] <==> c in t.nodes && p in t.nodes[c].parentIds
    {
      if p == id {
        assert t.children[p] == {};
      } else {
        assert t.children[p] == if p in node.parentIds then s.children[p] + {id} else s.children[p];
      }
    }
  }

  lemma AddKeepsOrder(s: Scope, node: Node)
    requires Consistent(s) && Apply(s, AddNode(node)).Ok?
    ensures ParentsPrecede(Apply(s, AddNode(node)).value)
  {
    var t := Apply(s, AddNode(node)).value;
    forall i, p | 0 <= i < |t.order| && p in t.nodes[t.order[i]].parentIds
      ensures p in t.order[..i]
    {
      if i < |s.order| {
        assert s.order[i] in SetOf(s.order);
        assert t.order[..i] == s.order[..i];
      } else {
        assert p in SetOf(s.order) && t.order[..i] == s.order;
      }
    }
  }

  lemma {:induction false} ApplyKeepsConsistent(s: Scope, c: Command)
    requires Consistent(s) && Apply(s, c).Ok?
    ensures Consistent(Apply(s, c).value)
  {
    if c.AddNode? {
      AddKeepsConsistent(s, c.node);
    }
  }

  /** Every document built by any run of commands from the empty one is acyclic, keeps
      `children` the exact inverse of `parentIds`, and lists parents before children. */
  lemma {:induction false} EveryRunIsConsistent(cs: seq<Command>)
    ensures Consistent(Run(EMPTY, cs))
    ensures Acyclic(Run(EMPTY, cs).children)
  {
    if cs != [] {
      EveryRunIsConsistent(cs[..|cs| - 1]);
      var before := Run(EMPTY, cs[..|cs| - 1]);
      if Apply(before, cs[|cs| - 1]).Ok? {
        ApplyKeepsConsistent(before, cs[|cs| - 1]);
      }
    }
    ConsistentIsAcyclic(Run(EMPTY, cs));
  }

  // ---- A document of two nodes ----

  lemma TwoNodes(a: Node, b: Node) returns (s: Scope)
    requires a.parentIds == [] && b.parentIds == [a.nodeId] && a.nodeId != b.nodeId
    ensures Consistent(s) && s.state.Draft? && s.nodes == map[a.nodeId := a, b.nodeId := b]
    ensures s.order == [a.nodeId, b.nodeId]
  {
    EveryRunIsConsistent([]);
    AddKeepsConsistent(EMPTY, a);
    var one := Apply(EMPTY, AddNode(a)).value;
    assert one.nodes == map[a.nodeId := a];
    AddToChain(one, b);
    s := Apply(one, AddNode(b)).value;
  }

  lemma AddToChain(s: Scope, b: Node)
    requires Consistent(s) && s.state.Draft? && b.nodeId !in s.nodes
    requires |b.parentIds| == 1 && b.parentIds[0] in s.nodes
    ensures Apply(s, AddNode(b)).Ok? && Apply(s, AddNode(b)).value.nodes == s.nodes[b.nodeId := b]
    ensures Apply(s, AddNode(b)).value.state == s.state && Apply(s, AddNode(b)).value.order == s.order + [b.nodeId]
    ensures Consistent(Apply(s, AddNode(b)).value)
  {
    assert forall p :: p in b.parentIds ==> p == b.parentIds[0];
    AddKeepsConsistent(s, b);
  }

  // ---- Lifecycle ----

  /** Once LOCKED, no command succeeds and no run changes anything. */
  lemma {:induction false} LockedIsFinal(s: Scope, cs: seq<Command>)
    requires s.state.Locked?
    ensures Run(s, cs) == s
    ensures forall c :: Apply(s, c).Err?
  {
    if cs != [] {
      LockedIsFinal(s, cs[..|cs| - 1]);
    }
  }

  /** A document is LOCKED only after having been PROPOSED and, later, APPROVED. */
  lemma {:induction false} LockedWasApproved(cs: seq<Command>) returns (i: nat, j: nat)
    requires Run(EMPTY, cs).state.Locked?
    ensures i < j < |cs|
    ensures Run(EMPTY, cs[..i]).state.Proposed? && Run(EMPTY, cs[..j]).state.Approved?
  {
    var k := |cs| - 1;
    if Run(EMPTY, cs[..k]).state.Locked? {
      i, j := LockedWasApproved(cs[..k]);
      assert cs[..k][..i] == cs[..i] && cs[..k][..j] == cs[..j];
    } else {
      j := k;
      i := ApprovedWasProposed(cs[..k]);
      assert cs[..k][..i] == cs[..i];
    }
  }

  lemma {:induction false} ApprovedWasProposed(cs: seq<Command>) returns (i: nat)
    requires Run(EMPTY, cs).state.Approved?
    ensures i < |cs| && Run(EMPTY, cs[..i]).state.Proposed?
  {
    var k := |cs| - 1;
    if Run(EMPTY, cs[..k]).state.Approved? {
      i := ApprovedWasProposed(cs[..k]);
      assert cs[..k][..i] == cs[..i];
    } else {
      i := k;
    }
  }

  /** Along a run nodes are only added, and nothing of a node but its boundary changes. */
  ghost predicate Extends(later: Scope, earlier: Scope) {
    && earlier.order <= later.order
    && earlier.nodes.Keys <= later.nodes.Keys
    && forall id :: id in earlier.nodes ==>
         later.nodes[id].(boundary := earlier.nodes[id].boundary) == earlier.nodes[id]
  }

  lemma {:induction false} RunOnlyExtends(s: Scope, cs: seq<Command>)
    ensures Extends(Run(s, cs), s)
  {
    if cs != [] {
      RunOnlyExtends(s, cs[..|cs| - 1]);
    }
  }
}
