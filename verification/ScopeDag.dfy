/** `AuditScopeDAG` as an object: nodes are shared, and their boundary is set in place. */
module ScopeDag {
  import opened Common
  import opened Graphs
  import opened Scope

  class ScopeNode {
    const nodeId: Uuid
    const controlId: string
    const riskWeight: real
    const parentIds: seq<Uuid>
    /** The evidence list in the node's metadata, if there is one. */
    const evidenceRequired: Option<seq<string>>
    var boundaryStatus: BoundaryStatus

    constructor (nodeId: Uuid, controlId: string, riskWeight: real, parentIds: seq<Uuid>,
                 evidenceRequired: Option<seq<string>>,
                 boundaryStatus: BoundaryStatus)
      ensures View() == Node(nodeId, controlId, riskWeight, parentIds, boundaryStatus)
    {
      this.nodeId := nodeId;
      this.controlId := controlId;
      this.riskWeight := riskWeight;
      this.parentIds := parentIds;
      this.evidenceRequired := evidenceRequired;
      this.boundaryStatus := boundaryStatus;
    }

    function View(): Node
      reads this
    {
      Node(nodeId, controlId, riskWeight, parentIds, boundaryStatus)
    }
  }

  ghost function Views(nodes: map<Uuid, ScopeNode>): map<Uuid, Node>
    reads nodes.Values
  {
    map id | id in nodes :: nodes[id].View()
  }

  lemma ViewsInsert(nodes: map<Uuid, ScopeNode>, id: Uuid, node: ScopeNode)
    ensures Views(nodes[id := node]) == Views(nodes)[id := node.View()]
  {
  }

  function NodesAt(nodes: map<Uuid, ScopeNode>, ids: seq<Uuid>): seq<ScopeNode>
    requires forall id :: id in ids ==> id in nodes
  {
    seq(|ids|, i requires 0 <= i < |ids| => assert ids[i] in ids; nodes[ids[i]])
  }

  lemma NodesAtFacts(nodes: map<Uuid, ScopeNode>, ids: seq<Uuid>)
    requires Distinct(ids) && forall id :: id in ids <==> id in nodes
    requires forall id :: id in nodes ==> nodes[id].nodeId == id
    requires forall i, p :: 0 <= i < |ids| && ids[i] in nodes && p in nodes[ids[i]].parentIds ==> p in ids[..i]
    ensures Distinct(NodesAt(nodes, ids))
    ensures forall n :: n in NodesAt(nodes, ids) <==> n in nodes.Values
    ensures ParentsFirst(NodesAt(nodes, ids))
  {
    var ns := NodesAt(nodes, ids);
    forall i | 0 <= i < |ids|
      ensures ids[i] in nodes && ns[i] == nodes[ids[i]] && ns[i].nodeId == ids[i]
    {
      assert ids[i] in ids;
    }
    forall n | n in nodes.Values
      ensures n in ns
    {
      var id :| id in nodes && nodes[id] == n;
      assert ns[IndexOf(ids, id)] == n;
    }
    forall i, p | 0 <= i < |ns| && p in ns[i].parentIds
      ensures exists j :: 0 <= j < i && ns[j].nodeId == p
    {
      var j := IndexOf(ids[..i], p);
      assert ns[j].nodeId == p;
    }
  }

  ghost predicate ParentsFirst(ns: seq<ScopeNode>) {
    forall i, p :: 0 <= i < |ns| && p in ns[i].parentIds ==> exists j :: 0 <= j < i && ns[j].nodeId == p
  }

  class AuditScopeDag {
    var state: ScopeState
    var order: seq<Uuid>
    var nodes: map<Uuid, ScopeNode>
    var children: Graph

    /** The document this object stands for. */
    ghost function View(): Scope
      reads this, nodes.Values
    {
      Scope(state, order, Views(nodes), children)
    }

    ghost predicate Valid()
      reads this, nodes.Values
    {
      Consistent(View())
    }

    constructor ()
      ensures Valid() && View() == EMPTY && nodes == map[]
    {
      state, order, nodes, children := Draft, [], map[], map[];
    }

    lemma ViewsAgree()
      requires Valid()
      ensures View().nodes.Keys == nodes.Keys
      ensures forall id :: id in nodes ==> nodes[id].nodeId == id && nodes[id].parentIds == View().nodes[id].parentIds
    {
      assert forall id :: id in nodes ==> View().nodes[id] == nodes[id].View();
    }

    /** What a mutator owes: the outcome of the command, and no change if it raises. */
    ghost predicate Did(before: Scope, c: Command, r: Result<(), ScopeError>)
      reads this, nodes.Values
    {
      match Apply(before, c)
      case Ok(after) => r == Ok(()) && View() == after
      case Err(e) => r == Err(e) && View() == before
    }

    method ChangeState(to: ScopeState) returns (r: Result<(), ScopeError>)
      requires Valid()
      modifies this`state
      ensures Valid() && Did(old(View()), Transition(to), r)
    {
      if to !in Successors(state) {
        return Err(InvalidTransition);
      }
      ghost var before := View();
      ApplyKeepsConsistent(before, Transition(to));
      state := to;
      assert View() == before.(state := to);
      r := Ok(());
    }

    method Add(node: ScopeNode) returns (r: Result<(), ScopeError>)
      requires Valid()
      modifies this`order, this`nodes, this`children
      ensures Valid() && Did(old(View()), AddNode(node.View()), r)
      ensures nodes == if r.Ok? then old(nodes)[node.nodeId := node] else old(nodes)
    {
      ghost var before, c := View(), AddNode(node.View());
      if state.Locked? {
        return Err(ScopeLocked);
      }
      if node.nodeId in nodes {
        return Err(DuplicateNode);
      }
      var known := AllKnown(node.parentIds);
      if !known {
        assert Apply(before, c) == Err(UnknownParent);
        return Err(UnknownParent);
      }
      Insert(node);
      ConsistentIsAcyclic(View());
      var ok := IsDag(children);
      if !ok {
        // The roll-back branch: no sequence of insertions gets here.
        assert false;
      }
      r := Ok(());
    }

    method Insert(node: ScopeNode)
      requires Valid() && Apply(View(), AddNode(node.View())).Ok?
      modifies this`order, this`nodes, this`children
      ensures Valid() && View() == Apply(old(View()), AddNode(node.View())).value
      ensures nodes == old(nodes)[node.nodeId := node]
    {
      AddKeepsConsistent(View(), node.View());
      var linked := Link(WithNode(children, node.nodeId), node.parentIds, node.nodeId);
      Store(node, linked);
    }

    method Store(node: ScopeNode, linked: Graph)
      modifies this`order, this`nodes, this`children
      ensures nodes == old(nodes)[node.nodeId := node]
      ensures View() ==
        old(View()).(order := old(order) + [node.nodeId],
                     nodes := old(View()).nodes[node.nodeId := node.View()],
                     children := linked)
    {
      ViewsInsert(nodes, node.nodeId, node);
      order, nodes, children := order + [node.nodeId], nodes[node.nodeId := node], linked;
    }

    method AllKnown(ids: seq<Uuid>) returns (known: bool)
      ensures known <==> forall p :: p in ids ==> p in nodes
    {
      for k := 0 to |ids|
        invariant forall p :: p in ids[..k] ==> p in nodes
      {
        assert ids[k] in ids;
        if ids[k] !in nodes {
          return false;
        }
      }
      assert ids[..|ids|] == ids;
      known := true;
    }

    static method Link(children: Graph, parents: seq<Uuid>, child: Uuid) returns (linked: Graph)
      requires forall p :: p in parents ==> p in children
      ensures linked == WithChild(children, parents, child)
    {
      linked := children;
      for k := 0 to |parents|
        invariant linked == WithChild(children, parents[..k], child)
      {
        var p := parents[k];
        assert p in parents;
        linked := linked[p := linked[p] + {child}];
        assert parents[..k + 1] == parents[..k] + [p];
      }
      assert parents[..|parents|] == parents;
    }

    method SetStatus(id: Uuid, status: BoundaryStatus) returns (r: Result<(), ScopeError>)
      requires Valid()
      modifies nodes.Values
      ensures Valid() && Did(old(View()), SetBoundary(id, status), r)
    {
      if state.Locked? {
        return Err(ScopeLocked);
      }
      if id !in nodes {
        return Err(UnknownNode);
      }
      ghost var before := View();
      ApplyKeepsConsistent(before, SetBoundary(id, status));
      forall k | k in nodes
        ensures nodes[k].nodeId == k
      {
        assert before.nodes[k].nodeId == k;
      }
      nodes[id].boundaryStatus := status;
      assert View().nodes == before.nodes[id := before.nodes[id].(boundary := status)];
      r := Ok(());
    }

    /** Never raises, and lists every node once, each after all of its parents. */
    method TopologicalOrder() returns (r: Result<seq<ScopeNode>, SortError>)
      requires Valid()
      ensures r.Ok? && |r.value| == |order| && Distinct(r.value)
      ensures forall n :: n in r.value <==> n in nodes.Values
      ensures ParentsFirst(r.value)
    {
      ghost var v := View();
      ConsistentIsAcyclic(v);
      var sorted := TopologicalSort(children, order);
      TopologicalListsParentsFirst(v, sorted.value);
      ViewsAgree();
      NodesAtFacts(nodes, sorted.value);
      r := Ok(NodesAt(nodes, sorted.value));
    }

    /** The nodes reachable from a node are exactly those linked to it by a path. */
    method Reachable(root: Uuid) returns (r: Result<set<Uuid>, ScopeError>)
      requires Valid()
      ensures r.Ok? <==> root in nodes
      ensures r.Ok? ==> forall n :: n in r.value <==> Reaches(children, root, n)
      ensures r.Err? ==> r.error == UnknownNode
    {
      if root !in nodes {
        return Err(UnknownNode);
      }
      ConsistentIsAcyclic(View());
      var visited := ReachableFrom(children, root);
      r := Ok(visited);
    }
  }
}
