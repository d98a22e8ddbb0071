/** Directed graphs as adjacency maps, and the three graph algorithms of
    engine/scope/dag.py: colouring cycle detection, Kahn's sort, reachability. */
module Graphs {
  import opened Common

  type Graph = map<Uuid, set<Uuid>>

  function Kids(g: Graph, n: Uuid): set<Uuid> {
    if n in g then g[n] else {}
  }

  ghost predicate Closed(g: Graph) {
    forall n, c :: n in g && c in g[n] ==> c in g
  }

  ghost predicate IsPath(g: Graph, p: seq<Uuid>) {
    |p| > 0 && forall i, j :: 0 <= i < |p| && j == i + 1 < |p| ==> p[j] in Kids(g, p[i])
  }

  ghost predicate IsCycle(g: Graph, p: seq<Uuid>) {
    |p| > 1 && IsPath(g, p) && p[0] == p[|p| - 1]
  }

  ghost predicate Acyclic(g: Graph) {
    forall p :: !IsCycle(g, p)
  }

  ghost predicate IsPathBetween(g: Graph, p: seq<Uuid>, a: Uuid, b: Uuid) {
    IsPath(g, p) && p[0] == a && p[|p| - 1] == b
  }

  /** Reflexive-transitive closure of the edge relation. */
  ghost predicate Reaches(g: Graph, a: Uuid, b: Uuid) {
    exists p :: IsPathBetween(g, p, a, b)
  }

  /** `order` lists every node once, and every edge goes forward in it. */
  ghost predicate IsTopological(g: Graph, order: seq<Uuid>) {
    && Distinct(order)
    && SetOf(order) == g.Keys
    && forall i, p :: 0 <= i < |order| && p in g && order[i] in g[p] ==> p in order[..i]
  }

  // ---- Ranks: the certificate of acyclicity used by every proof below ----

  ghost predicate Ranks(g: Graph, rank: map<Uuid, int>) {
    forall n, c :: n in g && c in g[n] ==> n in rank && c in rank && rank[n] < rank[c]
  }

  lemma {:induction false} RankRises(g: Graph, rank: map<Uuid, int>, p: seq<Uuid>)
    requires Ranks(g, rank) && IsPath(g, p) && |p| > 1
    ensures p[0] in rank && p[|p| - 1] in rank && rank[p[0]] < rank[p[|p| - 1]]
  {
    var q := p[..|p| - 1];
    var a, b := p[|q| - 1], p[|q|];
    assert b in Kids(g, a);
    assert a in g && b in g[a];
    assert rank[a] < rank[b];
    if |q| > 1 {
      RankRises(g, rank, q);
    }
  }

  lemma RankedIsAcyclic(g: Graph, rank: map<Uuid, int>)
    requires Ranks(g, rank)
    ensures Acyclic(g)
  {
    forall p | IsCycle(g, p)
      ensures false
    {
      RankRises(g, rank, p);
    }
  }

  ghost function IndexOf(order: seq<Uuid>, x: Uuid): (i: nat)
    requires x in order
    ensures i < |order| && order[i] == x
  {
    var i :| 0 <= i < |order| && order[i] == x;
    i
  }

  lemma PositionsRank(g: Graph, order: seq<Uuid>) returns (rank: map<Uuid, int>)
    requires IsTopological(g, order) && Closed(g)
    ensures Ranks(g, rank) && rank.Keys == SetOf(order)
    ensures forall x :: x in rank ==> 0 <= rank[x] < |order| && order[rank[x]] == x
  {
    rank := map x | x in SetOf(order) :: IndexOf(order, x);
    forall n, c | n in g && c in g[n]
      ensures n in rank && c in rank && rank[n] < rank[c]
    {
      assert c in SetOf(order) && n in SetOf(order);
      assert n in order[..IndexOf(order, c)];
    }
  }

  lemma TopologicalIsAcyclic(g: Graph, order: seq<Uuid>)
    requires IsTopological(g, order) && Closed(g)
    ensures Acyclic(g)
  {
    var rank := PositionsRank(g, order);
    RankedIsAcyclic(g, rank);
  }

  /** `a` comes before `b` along some path. */
  ghost predicate Above(g: Graph, a: Uuid, b: Uuid) {
    a != b && Reaches(g, a, b)
  }

  /** A topological order lists every node after all those above it. */
  lemma AboveIsEarlier(g: Graph, order: seq<Uuid>, a: Uuid, i: nat)
    requires IsTopological(g, order) && Closed(g) && i < |order| && Above(g, a, order[i])
    ensures a in order[..i]
  {
    var rank := PositionsRank(g, order);
    var p :| IsPathBetween(g, p, a, order[i]);
    RankRises(g, rank, p);
    assert order[rank[a]] == a && rank[order[i]] == i;
  }

  // ---- A set in which every node has a predecessor holds a cycle ----

  ghost function Preds(g: Graph, within: set<Uuid>, c: Uuid): set<Uuid> {
    set p | p in within && c in Kids(g, p)
  }

  lemma {:induction false} BackwardWalk(g: Graph, u: set<Uuid>, start: Uuid, n: nat) returns (p: seq<Uuid>)
    requires start in u
    requires forall c :: c in u ==> Preds(g, u, c) != {}
    ensures |p| == n + 1 && IsPath(g, p) && forall x :: x in p ==> x in u
  {
    if n == 0 {
      p := [start];
    } else {
      var q := BackwardWalk(g, u, start, n - 1);
      var h :| h in Preds(g, u, q[0]);
      p := [h] + q;
    }
  }

  lemma StuckHasCycle(g: Graph, u: set<Uuid>)
    requires u != {}
    requires forall c :: c in u ==> Preds(g, u, c) != {}
    ensures !Acyclic(g)
  {
    var start :| start in u;
    var p := BackwardWalk(g, u, start, |u|);
    var i, j := Repeats(p, u);
    assert IsCycle(g, p[i..j + 1]);
  }

  // ---- Cycle detection by depth-first colouring ----

  datatype Colour = White | Gray | Black

  /** The gray nodes are exactly the current DFS path, and the black nodes are exactly the
      ranked ones: closed under edges, each ranked below all nodes blackened before it. */
  ghost predicate Frontier(g: Graph, colour: map<Uuid, Colour>, path: seq<Uuid>, rank: map<Uuid, int>) {
    && colour.Keys == g.Keys
    && (path == [] || IsPath(g, path))
    && (forall n :: n in g ==> (colour[n].Gray? <==> n in path))
    && (forall n :: n in path ==> n in g)
    && (forall n :: n in g ==> (colour[n].Black? <==> n in rank))
    && RankedBelow(g, rank)
  }

  ghost predicate RankedBelow(g: Graph, rank: map<Uuid, int>) {
    && rank.Keys <= g.Keys
    && (forall n, c :: n in rank && c in g[n] ==> c in rank && rank[n] < rank[c])
    && (forall n :: n in rank ==> -|rank| < rank[n])
  }

  ghost function Whites(g: Graph, colour: map<Uuid, Colour>): set<Uuid> {
    set n | n in g && n in colour && colour[n].White?
  }

  lemma EnterKeepsFrontier(g: Graph, colour: map<Uuid, Colour>, path: seq<Uuid>, rank: map<Uuid, int>, node: Uuid)
    requires Frontier(g, colour, path, rank)
    requires node in g && colour[node].White?
    requires path != [] ==> node in Kids(g, path[|path| - 1])
    ensures Frontier(g, colour[node := Gray], path + [node], rank)
  {
  }

  lemma RankOneMore(g: Graph, rank: map<Uuid, int>, node: Uuid)
    requires RankedBelow(g, rank) && node in g && node !in rank
    requires forall c :: c in g[node] ==> c in rank
    ensures RankedBelow(g, rank[node := -|rank|])
  {
    assert |rank[node := -|rank|]| == |rank| + 1;
  }

  lemma LeaveKeepsFrontier(g: Graph, colour: map<Uuid, Colour>, path: seq<Uuid>, rank: map<Uuid, int>, node: Uuid)
    requires Frontier(g, colour, path + [node], rank)
    requires node !in path
    requires forall c :: c in Kids(g, node) ==> c in rank
    ensures Frontier(g, colour[node := Black], path, rank[node := -|rank|])
  {
    var p := path + [node];
    assert p[|path|] == node && node in g && node !in rank;
    assert path != [] ==> path == p[..|path|];
    RankOneMore(g, rank, node);
  }

  lemma WhitesShrink(g: Graph, before: map<Uuid, Colour>, after: map<Uuid, Colour>, path: seq<Uuid>,
                     rank: map<Uuid, int>, rank': map<Uuid, int>)
    requires Frontier(g, before, path, rank) && Frontier(g, after, path, rank')
    requires rank.Keys <= rank'.Keys
    ensures Whites(g, after) <= Whites(g, before)
  {
  }

  lemma BackEdgeIsCycle(g: Graph, path: seq<Uuid>, child: Uuid)
    requires path != [] && IsPath(g, path)
    requires child in path && child in Kids(g, path[|path| - 1])
    ensures !Acyclic(g)
  {
    var i :| 0 <= i < |path| && path[i] == child;
    assert IsCycle(g, path[i..] + [child]);
  }

  method Dfs(g: Graph, colour: map<Uuid, Colour>, node: Uuid, ghost path: seq<Uuid>, ghost rank: map<Uuid, int>)
    returns (ok: bool, colour': map<Uuid, Colour>, ghost rank': map<Uuid, int>)
    requires Closed(g) && Frontier(g, colour, path, rank)
    requires node in g && colour[node].White?
    requires path != [] ==> node in Kids(g, path[|path| - 1])
    ensures !ok ==> !Acyclic(g)
    ensures ok ==> Frontier(g, colour', path, rank') && rank.Keys + {node} <= rank'.Keys
    decreases Whites(g, colour)
  {
    ghost var path' := path + [node];
    rank' := rank;
    EnterKeepsFrontier(g, colour, path, rank, node);
    colour' := colour[node := Gray];
    assert node in Whites(g, colour) && node !in Whites(g, colour');
    var todo := g[node];
    while todo != {}
      invariant todo <= g[node]
      invariant Frontier(g, colour', path', rank')
      invariant rank.Keys <= rank'.Keys
      invariant Whites(g, colour') < Whites(g, colour)
      invariant forall c :: c in g[node] ==> c in todo || c in rank'
    {
      var child :| child in todo;
      todo := todo - {child};
      if colour'[child].Gray? {
        BackEdgeIsCycle(g, path', child);
        return false, colour', rank';
      }
      if colour'[child].White? {
        ghost var before, rankBefore := colour', rank';
        ok, colour', rank' := Dfs(g, colour', child, path', rank');
        if !ok {
          return;
        }
        WhitesShrink(g, before, colour', path', rankBefore, rank');
      }
    }
    LeaveKeepsFrontier(g, colour', path, rank', node);
    colour' := colour'[node := Black];
    rank' := rank'[node := -|rank'|];
    ok := true;
  }

  /** Returns true exactly when the graph has no directed cycle. */
  method IsDag(g: Graph) returns (ok: bool)
    requires Closed(g)
    ensures ok <==> Acyclic(g)
  {
    var colour: map<Uuid, Colour> := map n | n in g :: White;
    ghost var rank: map<Uuid, int> := map[];
    var todo := g.Keys;
    while todo != {}
      invariant todo <= g.Keys
      invariant Frontier(g, colour, [], rank)
      invariant g.Keys - todo <= rank.Keys
    {
      var n :| n in todo;
      todo := todo - {n};
      if colour[n].White? {
        ok, colour, rank := Dfs(g, colour, n, [], rank);
        if !ok {
          return;
        }
      }
    }
    RankedIsAcyclic(g, rank);
    ok := true;
  }

  // ---- Kahn's algorithm ----

  ghost predicate Counted(g: Graph, within: set<Uuid>, degree: map<Uuid, nat>) {
    degree.Keys == g.Keys && forall c :: c in g ==> degree[c] == |Preds(g, within, c)|
  }

  method InDegrees(g: Graph, ids: seq<Uuid>) returns (degree: map<Uuid, nat>)
    requires Closed(g) && Distinct(ids) && SetOf(ids) == g.Keys
    ensures Counted(g, g.Keys, degree)
  {
    degree := map n | n in g :: 0;
    CountedNone(g, degree);
    for k := 0 to |ids|
      invariant Counted(g, SetOf(ids[..k]), degree)
    {
      assert ids[k] in SetOf(ids);
      ghost var before := degree;
      SetOfNext(ids, k);
      degree := CountChildren(g, ids[k], degree);
      CountStep(g, SetOf(ids[..k]), ids[k], before, degree);
    }
    assert ids[..|ids|] == ids;
  }

  lemma CountedNone(g: Graph, degree: map<Uuid, nat>)
    requires degree.Keys == g.Keys && forall n :: n in g ==> degree[n] == 0
    ensures Counted(g, {}, degree)
  {
    assert forall c :: Preds(g, {}, c) == {};
  }

  lemma CountStep(g: Graph, seen: set<Uuid>, p: Uuid, before: map<Uuid, nat>, after: map<Uuid, nat>)
    requires Counted(g, seen, before) && p in g && p !in seen
    requires after.Keys == g.Keys
    requires forall c :: c in g ==> after[c] == before[c] + if c in g[p] then 1 else 0
    ensures Counted(g, seen + {p}, after)
  {
    forall c | c in g
      ensures after[c] == |Preds(g, seen + {p}, c)|
    {
      PredsGrow(g, seen, p, c);
    }
  }

  method CountChildren(g: Graph, p: Uuid, degree: map<Uuid, nat>) returns (degree': map<Uuid, nat>)
    requires Closed(g) && p in g && degree.Keys == g.Keys
    ensures degree'.Keys == g.Keys
    ensures forall c :: c in g ==> degree'[c] == degree[c] + if c in g[p] then 1 else 0
  {
    degree' := degree;
    var todo := g[p];
    while todo != {}
      invariant todo <= g[p] && degree'.Keys == g.Keys
      invariant forall c :: c in g ==> degree'[c] == degree[c] + if c in g[p] - todo then 1 else 0
    {
      var c :| c in todo;
      todo := todo - {c};
      degree' := degree'[c := degree'[c] + 1];
    }
  }

  lemma PredsGrow(g: Graph, within: set<Uuid>, p: Uuid, c: Uuid)
    requires p !in within
    ensures |Preds(g, within + {p}, c)| == |Preds(g, within, c)| + if c in Kids(g, p) then 1 else 0
  {
    if c in Kids(g, p) {
      assert Preds(g, within + {p}, c) == Preds(g, within, c) + {p};
    } else {
      assert Preds(g, within + {p}, c) == Preds(g, within, c);
    }
  }

  /** Kahn state: nodes emitted in `order` come after all their predecessors, `degree`
      counts the predecessors not yet emitted, and the emitted and queued nodes are exactly
      those of degree zero, each once. `owed` holds the children of the node in hand whose
      degree has not been lowered yet. */
  ghost predicate KahnState(g: Graph, order: seq<Uuid>, queue: seq<Uuid>, degree: map<Uuid, nat>, owed: set<Uuid>) {
    && EmittedInOrder(g, order)
    && Distinct(queue)
    && (forall c :: c in queue ==> c in g && c !in order)
    && degree.Keys == g.Keys
    && (forall c :: c in g ==> degree[c] == |Preds(g, g.Keys - SetOf(order), c)| + if c in owed then 1 else 0)
    && (forall c :: c in g ==> (c in order || c in queue <==> degree[c] == 0))
  }

  ghost predicate EmittedInOrder(g: Graph, order: seq<Uuid>) {
    && Distinct(order)
    && SetOf(order) <= g.Keys
    && forall i, p :: 0 <= i < |order| && p in g && order[i] in g[p] ==> p in order[..i]
  }

  lemma {:induction false} EmitKeepsOrder(g: Graph, order: seq<Uuid>, nid: Uuid)
    requires EmittedInOrder(g, order) && nid in g && nid !in order
    requires Preds(g, g.Keys - SetOf(order), nid) == {}
    ensures EmittedInOrder(g, order + [nid])
  {
    var order' := order + [nid];
    assert SetOf(order') == SetOf(order) + {nid};
    forall i, p | 0 <= i < |order'| && p in g && order'[i] in g[p]
      ensures p in order'[..i]
    {
      if i == |order| {
        assert order'[..i] == order;
        assert p !in Preds(g, g.Keys - SetOf(order), nid);
      } else {
        assert order'[..i] == order[..i];
      }
    }
  }

  lemma EmitKeepsState(g: Graph, order: seq<Uuid>, queue: seq<Uuid>, degree: map<Uuid, nat>)
    requires queue != [] && KahnState(g, order, queue, degree, {})
    ensures KahnState(g, order + [queue[0]], queue[1..], degree, g[queue[0]])
  {
    var nid, left := queue[0], g.Keys - SetOf(order + [queue[0]]);
    assert queue == [nid] + queue[1..];
    assert forall c :: c in order + [nid] <==> c in order || c == nid;
    assert left + {nid} == g.Keys - SetOf(order);
    EmitKeepsOrder(g, order, nid);
    forall c | c in g
      ensures degree[c] == |Preds(g, left, c)| + if c in g[nid] then 1 else 0
    {
      PredsGrow(g, left, nid, c);
    }
  }

  /** Lowering the degree of one child that is owed it, and queueing it at zero. */
  lemma LowerKeepsState(g: Graph, order: seq<Uuid>, queue: seq<Uuid>, degree: map<Uuid, nat>, owed: set<Uuid>, c: Uuid)
    requires KahnState(g, order, queue, degree, owed) && c in owed && c in g
    ensures degree[c] >= 1
    ensures KahnState(g, order, if degree[c] == 1 then queue + [c] else queue, degree[c := degree[c] - 1], owed - {c})
  {
    assert c !in queue && c !in order;
    assert forall x :: x in queue + [c] <==> x in queue || x == c;
  }

  /** When the queue runs dry, the emitted nodes are all of them, or the rest hold a cycle. */
  lemma DryQueueDecides(g: Graph, order: seq<Uuid>, degree: map<Uuid, nat>)
    requires Closed(g) && KahnState(g, order, [], degree, {})
    ensures |order| == |g| <==> Acyclic(g)
    ensures |order| == |g| ==> IsTopological(g, order)
  {
    var rest := g.Keys - SetOf(order);
    DistinctSize(order);
    assert |rest| == |g.Keys| - |SetOf(order)|;
    if rest == {} {
      assert SetOf(order) == g.Keys;
      TopologicalIsAcyclic(g, order);
    } else {
      StuckHasCycle(g, rest);
    }
  }

  datatype SortError = CycleDetected

  /** Succeeds exactly on acyclic graphs, and then with a topological order. `ids` is the
      order in which the node dictionary lists its keys; ties are broken arbitrarily. */
  method TopologicalSort(g: Graph, ids: seq<Uuid>) returns (r: Result<seq<Uuid>, SortError>)
    requires Closed(g) && Distinct(ids) && SetOf(ids) == g.Keys
    ensures r.Ok? <==> Acyclic(g)
    ensures r.Ok? ==> IsTopological(g, r.value)
  {
    var degree := InDegrees(g, ids);
    var order: seq<Uuid> := [];
    var queue := Roots(ids, degree);
    assert g.Keys - SetOf(order) == g.Keys;
    assert forall c :: c in g <==> c in SetOf(ids);
    while queue != []
      invariant KahnState(g, order, queue, degree, {})
      decreases g.Keys - SetOf(order)
    {
      var nid := queue[0];
      EmitKeepsState(g, order, queue, degree);
      ghost var left := g.Keys - SetOf(order);
      order, queue := order + [nid], queue[1..];
      assert nid in left && nid in SetOf(order);
      degree, queue := VisitChildren(g, order, queue, degree, nid);
    }
    DryQueueDecides(g, order, degree);
    r := if |order| != |g| then Err(CycleDetected) else Ok(order);
  }

  method Roots(ids: seq<Uuid>, degree: map<Uuid, nat>) returns (queue: seq<Uuid>)
    requires Distinct(ids) && SetOf(ids) == degree.Keys
    ensures Distinct(queue)
    ensures forall c :: c in queue <==> c in ids && degree[c] == 0
  {
    queue := [];
    for k := 0 to |ids|
      invariant Distinct(queue)
      invariant forall c :: c in queue <==> c in ids[..k] && degree[c] == 0
    {
      assert ids[k] in SetOf(ids);
      assert ids[..k + 1] == ids[..k] + [ids[k]];
      if degree[ids[k]] == 0 {
        queue := queue + [ids[k]];
      }
    }
    assert ids[..|ids|] == ids;
  }

  /** Lowers the in-degree of each child of `nid`, queueing those that reach zero. */
  method VisitChildren(g: Graph, ghost order: seq<Uuid>, queue: seq<Uuid>, degree: map<Uuid, nat>, nid: Uuid)
    returns (degree': map<Uuid, nat>, queue': seq<Uuid>)
    requires Closed(g) && nid in g && KahnState(g, order, queue, degree, g[nid])
    ensures KahnState(g, order, queue', degree', {})
  {
    degree', queue' := degree, queue;
    var todo := g[nid];
    while todo != {}
      invariant todo <= g[nid]
      invariant KahnState(g, order, queue', degree', todo)
    {
      var c :| c in todo;
      LowerKeepsState(g, order, queue', degree', todo, c);
      todo := todo - {c};
      degree' := degree'[c := degree'[c] - 1];
      if degree'[c] == 0 {
        queue' := queue' + [c];
      }
    }
  }

  // ---- Reachability ----

  /** Collects exactly the nodes reachable from `root`, itself included. */
  method ReachableFrom(g: Graph, root: Uuid) returns (visited: set<Uuid>)
    requires Closed(g) && root in g
    ensures forall n :: n in visited <==> Reaches(g, root, n)
  {
    visited := {};
    var stack := [root];
    assert IsPathBetween(g, [root], root, root);
    while stack != []
      invariant visited <= g.Keys
      invariant forall n :: n in stack ==> n in g
      invariant forall n :: n in visited || n in stack ==> Reaches(g, root, n)
      invariant root in visited || root in stack
      invariant forall n, c :: n in visited && c in g[n] ==> c in visited || c in stack
      decreases g.Keys - visited, |stack|
    {
      var current := stack[|stack| - 1];
      ghost var before := stack;
      stack := stack[..|stack| - 1];
      assert forall n :: n in before ==> n == current || n in stack;
      if current in visited {
        continue;
      }
      visited := visited + {current};
      var kids := Listing(g[current]);
      forall c | c in kids
        ensures c in g && Reaches(g, root, c)
      {
        assert c in SetOf(kids);
        ReachesStep(g, root, current, c);
      }
      assert forall c :: c in g[current] ==> c in SetOf(kids);
      stack := stack + kids;
    }
    forall n | Reaches(g, root, n)
      ensures n in visited
    {
      var p :| IsPathBetween(g, p, root, n);
      ClosedSetHoldsPath(g, visited, p);
    }
  }

  lemma ReachesStep(g: Graph, a: Uuid, b: Uuid, c: Uuid)
    requires Reaches(g, a, b) && c in Kids(g, b)
    ensures Reaches(g, a, c)
  {
    var p :| IsPathBetween(g, p, a, b);
    assert IsPathBetween(g, p + [c], a, c);
  }

  lemma {:induction false} ClosedSetHoldsPath(g: Graph, s: set<Uuid>, p: seq<Uuid>)
    requires IsPath(g, p) && p[0] in s
    requires forall n, c :: n in s && c in Kids(g, n) ==> c in s
    ensures p[|p| - 1] in s
  {
    if |p| > 1 {
      ClosedSetHoldsPath(g, s, p[..|p| - 1]);
      assert p[|p| - 1] in Kids(g, p[|p| - 2]);
    }
  }
}
