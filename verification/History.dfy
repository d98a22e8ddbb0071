/** Version history of a scope document (engine/scope/history.py). */
module History {
  import opened Common
  import opened Scope
  import opened ScopeDag

  type Snapshot = map<Uuid, Node>

  /** The two attributes a diff compares. */
  datatype Face = Face(boundary: BoundaryStatus, riskWeight: real)

  datatype ChangeKind = Added | Removed | Modified

  datatype NodeDiff = NodeDiff(controlId: string, nodeId: Uuid, kind: ChangeKind, before: Option<Face>,
                               after: Option<Face>)

  datatype HistoryError = AlreadyRecorded | VersionNotFound

  function FaceOf(m: Snapshot, id: Uuid): Option<Face> {
    if id in m then Some(Face(m[id].boundary, m[id].riskWeight)) else None
  }

  function Faces(m: Snapshot): map<Uuid, Face> {
    map id | id in m :: Face(m[id].boundary, m[id].riskWeight)
  }

  // ---- Diff ----

  predicate Changed(a: Snapshot, b: Snapshot, id: Uuid) {
    FaceOf(a, id) != FaceOf(b, id)
  }

  function ChangeOf(a: Snapshot, b: Snapshot, id: Uuid): NodeDiff
    requires Changed(a, b, id)
  {
    var kind := if id !in a then Added else if id !in b then Removed else Modified;
    NodeDiff(if id in a then a[id].controlId else b[id].controlId, id, kind, FaceOf(a, id), FaceOf(b, id))
  }

  /** The changes are one record for each identifier whose face differs, in some order. */
  ghost predicate IsDiff(a: Snapshot, b: Snapshot, changes: seq<NodeDiff>) {
    && (forall c :: c in changes ==> Changed(a, b, c.nodeId) && c == ChangeOf(a, b, c.nodeId))
    && (forall i, j :: 0 <= i < j < |changes| ==> changes[i].nodeId != changes[j].nodeId)
    && (forall id :: Changed(a, b, id) ==> ChangeOf(a, b, id) in changes)
  }

  method DiffSnapshots(a: Snapshot, b: Snapshot) returns (changes: seq<NodeDiff>)
    ensures IsDiff(a, b, changes)
  {
    changes := [];
    var added := DiffOver(a, b, b.Keys - a.Keys);
    var removed := DiffOver(a, b, a.Keys - b.Keys);
    var modified := DiffOver(a, b, a.Keys * b.Keys);
    changes := added + removed + modified;
    forall id | Changed(a, b, id)
      ensures ChangeOf(a, b, id) in changes
    {
      assert id in b.Keys - a.Keys || id in a.Keys - b.Keys || id in a.Keys * b.Keys;
    }
  }

  /** One of the three loops: the changes among `ids`. */
  method DiffOver(a: Snapshot, b: Snapshot, ids: set<Uuid>) returns (changes: seq<NodeDiff>)
    requires ids <= a.Keys + b.Keys
    ensures forall c :: c in changes ==> c.nodeId in ids && Changed(a, b, c.nodeId) && c == ChangeOf(a, b, c.nodeId)
    ensures forall i, j :: 0 <= i < j < |changes| ==> changes[i].nodeId != changes[j].nodeId
    ensures forall id :: id in ids && Changed(a, b, id) ==> ChangeOf(a, b, id) in changes
  {
    changes := [];
    var todo := ids;
    while todo != {}
      invariant todo <= ids
      invariant forall c :: c in changes ==>
        c.nodeId in ids - todo && Changed(a, b, c.nodeId) && c == ChangeOf(a, b, c.nodeId)
      invariant forall i, j :: 0 <= i < j < |changes| ==> changes[i].nodeId != changes[j].nodeId
      invariant forall id :: id in ids - todo && Changed(a, b, id) ==> ChangeOf(a, b, id) in changes
    {
      var id :| id in todo;
      todo := todo - {id};
      if id !in a {
        changes := changes + [NodeDiff(b[id].controlId, id, Added, None, FaceOf(b, id))];
      } else if id !in b {
        changes := changes + [NodeDiff(a[id].controlId, id, Removed, FaceOf(a, id), None)];
      } else if a[id].boundary != b[id].boundary || a[id].riskWeight != b[id].riskWeight {
        changes := changes + [NodeDiff(a[id].controlId, id, Modified, FaceOf(a, id), FaceOf(b, id))];
      }
    }
  }

  /** What a reader of a diff does with it. */
  function Patch(m: map<Uuid, Face>, changes: seq<NodeDiff>): map<Uuid, Face> {
    if changes == [] then m
    else
      var p := Patch(m, changes[..|changes| - 1]);
      var c := changes[|changes| - 1];
      match c.after
      case Some(f) => p[c.nodeId := f]
      case None => p - {c.nodeId}
  }

  lemma {:induction false} PatchAt(a: Snapshot, b: Snapshot, changes: seq<NodeDiff>, k: nat, id: Uuid)
    requires IsDiff(a, b, changes) && k <= |changes|
    ensures var p := Patch(Faces(a), changes[..k]);
      var hit := exists i :: 0 <= i < k && changes[i].nodeId == id;
      (if id in p then Some(p[id]) else None) == if hit then FaceOf(b, id) else FaceOf(a, id)
  {
    if k > 0 {
      PatchAt(a, b, changes, k - 1, id);
      assert changes[..k][..k - 1] == changes[..k - 1];
      assert changes[k - 1] in changes;
    }
  }

  /** Applying the diff of two snapshots to the first gives the second, and the diff is
      empty exactly when the boundary and risk of all nodes agree. */
  lemma DiffIsFaithful(a: Snapshot, b: Snapshot, changes: seq<NodeDiff>)
    requires IsDiff(a, b, changes)
    ensures Patch(Faces(a), changes) == Faces(b)
    ensures changes == [] <==> Faces(a) == Faces(b)
  {
    var p, n := Patch(Faces(a), changes), |changes|;
    assert changes[..n] == changes;
    forall id
      ensures id in p <==> id in b
      ensures id in p ==> Some(p[id]) == FaceOf(b, id)
    {
      PatchAt(a, b, changes, n, id);
      if Changed(a, b, id) {
        var c := ChangeOf(a, b, id);
        assert c in changes && c.nodeId == id;
      }
    }
    if changes != [] {
      var id := changes[0].nodeId;
      assert changes[0] in changes && Changed(a, b, id);
      assert (id in Faces(a)) != (id in Faces(b)) || Faces(a)[id] != Faces(b)[id];
    }
  }

  /** A rename is not a removal and an addition: it leaves no trace in the diff. */
  lemma RenameLeavesNoTrace(a: Snapshot, id: Uuid, name: string)
    requires id in a && a[id].controlId != name
    ensures a[id := a[id].(controlId := name)] != a
    ensures IsDiff(a, a[id := a[id].(controlId := name)], [])
  {
    var b := a[id := a[id].(controlId := name)];
    assert b[id] != a[id];
  }

  // ---- The version history ----

  datatype ScopeSnapshot = ScopeSnapshot(version: int, engagementId: string, nodes: Snapshot, changedBy: string,
                                         note: string)

  class ScopeVersionHistory {
    const engagementId: string
    var versions: map<int, ScopeSnapshot>

    constructor (engagementId: string)
      ensures versions == map[] && this.engagementId == engagementId
    {
      this.engagementId := engagementId;
      versions := map[];
    }

    /** Copies the nodes as they are now; a version is recorded at most once. */
    method RecordVersion(dag: AuditScopeDag, version: int, changedBy: string, note: string)
      returns (r: Result<ScopeSnapshot, HistoryError>)
      requires dag.Valid()
      modifies this
      ensures r.Ok? <==> version !in old(versions)
      ensures r.Ok? ==> r.value == ScopeSnapshot(version, engagementId, dag.View().nodes, changedBy, note)
      ensures r.Err? ==> r.error == AlreadyRecorded
      ensures versions == if r.Ok? then old(versions)[version := r.value] else old(versions)
    {
      if version in versions {
        return Err(AlreadyRecorded);
      }
      var copies := map id | id in dag.nodes :: dag.nodes[id].View();
      var snapshot := ScopeSnapshot(version, engagementId, copies, changedBy, note);
      versions := versions[version := snapshot];
      r := Ok(snapshot);
    }

    method Diff(from: int, to: int) returns (r: Result<seq<NodeDiff>, HistoryError>)
      ensures r.Ok? <==> from in versions && to in versions
      ensures r.Ok? ==> IsDiff(versions[from].nodes, versions[to].nodes, r.value)
      ensures r.Err? ==> r.error == VersionNotFound
    {
      if from !in versions || to !in versions {
        return Err(VersionNotFound);
      }
      var changes := DiffSnapshots(versions[from].nodes, versions[to].nodes);
      r := Ok(changes);
    }
  }

  // ---- Runs that interleave scope commands and recordings ----

  datatype Archive = Archive(scope: Scope, versions: map<int, Snapshot>)

  datatype Event = Do(command: Command) | Record(version: int)

  function Step(a: Archive, e: Event): Archive {
    match e
    case Do(c) => a.(scope := Run(a.scope, [c]))
    case Record(v) => if v in a.versions then a else a.(versions := a.versions[v := a.scope.nodes])
  }

  function Replay(a: Archive, es: seq<Event>): Archive {
    if es == [] then a else Step(Replay(a, es[..|es| - 1]), es[|es| - 1])
  }

  /** Every node of `earlier` is still there, with nothing but its boundary changed. */
  ghost predicate Grows(earlier: Snapshot, later: Snapshot) {
    forall id :: id in earlier ==> id in later && later[id].(boundary := earlier[id].boundary) == earlier[id]
  }

  ghost predicate Archived(a: Archive) {
    forall v :: v in a.versions ==> Grows(a.versions[v], a.scope.nodes)
  }

  /** Recorded versions never change, whatever happens to the document afterwards; versions
      recorded later contain every earlier node, and are all equal once it is LOCKED. */
  lemma {:induction false} VersionsArePermanent(a: Archive, es: seq<Event>)
    requires Archived(a)
    ensures Archived(Replay(a, es)) && Grows(a.scope.nodes, Replay(a, es).scope.nodes)
    ensures forall v :: v in a.versions ==> v in Replay(a, es).versions && Replay(a, es).versions[v] == a.versions[v]
    ensures forall v :: v in Replay(a, es).versions && v !in a.versions ==>
      && Grows(a.scope.nodes, Replay(a, es).versions[v])
      && (a.scope.state.Locked? ==> Replay(a, es).versions[v] == a.scope.nodes)
    ensures a.scope.state.Locked? ==> Replay(a, es).scope == a.scope
  {
    if es != [] {
      var b, e := Replay(a, es[..|es| - 1]), es[|es| - 1];
      VersionsArePermanent(a, es[..|es| - 1]);
      if e.Do? {
        RunOnlyExtends(b.scope, [e.command]);
        if b.scope.state.Locked? {
          LockedIsFinal(b.scope, [e.command]);
        }
      }
    }
  }

  /** Two versions recorded after LOCKED have an empty diff. Between an earlier and a later
      version of one document nothing is removed, and no risk weight changes. */
  lemma DiffAlongRun(past: seq<Event>, future: seq<Event>, v: int, w: int, changes: seq<NodeDiff>)
    requires var a, b := Replay(Archive(EMPTY, map[]), past), Replay(Archive(EMPTY, map[]), past + future);
      w in b.versions && w !in a.versions && v in b.versions && IsDiff(b.versions[v], b.versions[w], changes)
    ensures var a := Replay(Archive(EMPTY, map[]), past);
      && (v !in a.versions && a.scope.state.Locked? ==> changes == [])
      && (v in a.versions ==> forall c :: c in changes ==>
            !c.kind.Removed? && (c.kind.Modified? ==> c.before.value.riskWeight == c.after.value.riskWeight))
  {
    var empty := Archive(EMPTY, map[]);
    var a := Replay(empty, past);
    VersionsArePermanent(empty, past);
    ReplaySplit(empty, past, future);
    VersionsArePermanent(a, future);
    var b := Replay(a, future);
    DiffIsFaithful(b.versions[v], b.versions[w], changes);
    if v in a.versions {
      assert Grows(a.versions[v], a.scope.nodes) && Grows(a.scope.nodes, b.versions[w]);
      GrowsTransitive(a.versions[v], a.scope.nodes, b.versions[w]);
    }
  }

  lemma GrowsTransitive(a: Snapshot, b: Snapshot, c: Snapshot)
    requires Grows(a, b) && Grows(b, c)
    ensures Grows(a, c)
  {
    forall id | id in a
      ensures id in c && c[id].(boundary := a[id].boundary) == a[id]
    {
      assert id in b;
    }
  }

  lemma {:induction false} ReplaySplit(a: Archive, past: seq<Event>, future: seq<Event>)
    ensures Replay(a, past + future) == Replay(Replay(a, past), future)
  {
    if future == [] {
      assert past + future == past;
    } else {
      var k := |future| - 1;
      ReplaySplit(a, past, future[..k]);
      assert (past + future)[..|past| + k] == past + future[..k];
    }
  }
}
