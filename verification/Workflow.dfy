/** Scope modification workflow with its audit trail (engine/scope/workflow.py). */
module Workflow {
  import opened Common
  import Scope

  type BoundaryStatus = Scope.BoundaryStatus

  datatype Status = Pending | Approved | Rejected

  datatype ChangeKind = AddsNode | RemovesNode | SetsBoundary

  datatype ScopeChange = ScopeChange(kind: ChangeKind, controlId: string, nodeId: Option<Uuid>,
                                     boundary: Option<BoundaryStatus>)

  datatype Request = Request(requestId: Uuid, engagement: string, requestedBy: string, changes: seq<ScopeChange>,
                             status: Status, reviewedBy: Option<string>, note: Option<string>)

  datatype EventType = Requested | ApprovedEvent | RejectedEvent

  datatype AuditEvent = AuditEvent(engagement: string, kind: EventType, actor: string, requestId: Uuid)

  /** `order` is the insertion order of the request dictionary. */
  datatype Desk = Desk(order: seq<Uuid>, requests: map<Uuid, Request>, trail: seq<AuditEvent>)

  datatype WorkflowError = UnknownRequest | AlreadyReviewed | IdInUse

  /** `Submit` carries the identifier drawn for the request; one in use is never drawn. */
  datatype Operation =
    | Submit(id: Uuid, engagement: string, actor: string, changes: seq<ScopeChange>)
    | Review(id: Uuid, approve: bool, actor: string, note: string)

  const EMPTY := Desk([], map[], [])

  function Verdict(approve: bool): EventType {
    if approve then ApprovedEvent else RejectedEvent
  }

  function NewRequest(op: Operation): Request
    requires op.Submit?
  {
    Request(op.id, op.engagement, op.actor, op.changes, Pending, None, None)
  }

  function Reviewed(r: Request, op: Operation): Request
    requires op.Review?
  {
    r.(status := if op.approve then Approved else Rejected, reviewedBy := Some(op.actor), note := Some(op.note))
  }

  function Apply(d: Desk, op: Operation): Result<Desk, WorkflowError> {
    match op
    case Submit(id, engagement, actor, _) =>
      if id in d.requests then Err(IdInUse)
      else Ok(Desk(d.order + [id], d.requests[id := NewRequest(op)],
                   d.trail + [AuditEvent(engagement, Requested, actor, id)]))
    case Review(id, approve, actor, _) =>
      if id !in d.requests then Err(UnknownRequest)
      else if d.requests[id].status != Pending then Err(AlreadyReviewed)
      else Ok(d.(requests := d.requests[id := Reviewed(d.requests[id], op)],
                 trail := d.trail + [AuditEvent(d.requests[id].engagement, Verdict(approve), actor, id)]))
  }

  function Run(d: Desk, ops: seq<Operation>): Desk {
    if ops == [] then d
    else
      var before := Run(d, ops[..|ops| - 1]);
      match Apply(before, ops[|ops| - 1])
      case Ok(after) => after
      case Err(_) => before
  }

  // ---- Reading the trail ----

  function StatusAfter(kind: EventType): Status {
    match kind
    case Requested => Pending
    case ApprovedEvent => Approved
    case RejectedEvent => Rejected
  }

  /** The statuses a reader of the trail reconstructs. */
  function Replay(trail: seq<AuditEvent>): map<Uuid, Status> {
    if trail == [] then map[]
    else
      var e := trail[|trail| - 1];
      Replay(trail[..|trail| - 1])[e.requestId := StatusAfter(e.kind)]
  }

  function Trail(trail: seq<AuditEvent>, engagement: string): seq<AuditEvent> {
    if trail == [] then []
    else
      var e := trail[|trail| - 1];
      Trail(trail[..|trail| - 1], engagement) + if e.engagement == engagement then [e] else []
  }

  /** The identifiers requested, in the order of the trail. */
  function RequestedIds(trail: seq<AuditEvent>): seq<Uuid> {
    if trail == [] then []
    else
      var e := trail[|trail| - 1];
      RequestedIds(trail[..|trail| - 1]) + if e.kind.Requested? then [e.requestId] else []
  }

  function CountRequested(trail: seq<AuditEvent>, id: Uuid): nat {
    if trail == [] then 0
    else
      var e := trail[|trail| - 1];
      CountRequested(trail[..|trail| - 1], id) + if e.requestId == id && e.kind.Requested? then 1 else 0
  }

  function CountDecided(trail: seq<AuditEvent>, id: Uuid): nat {
    if trail == [] then 0
    else
      var e := trail[|trail| - 1];
      CountDecided(trail[..|trail| - 1], id) + if e.requestId == id && !e.kind.Requested? then 1 else 0
  }

  function Statuses(requests: map<Uuid, Request>): map<Uuid, Status> {
    map id | id in requests :: requests[id].status
  }

  function StatusesOf(requests: map<Uuid, Request>, engagement: string): map<Uuid, Status> {
    map id | id in requests && requests[id].engagement == engagement :: requests[id].status
  }

  // ---- The trail tells the truth ----

  /** State and trail agree: the whole trail replays to all statuses, and the trail of each
      engagement to the statuses of its own requests; requests are in trail order. */
  ghost predicate Agrees(d: Desk) {
    StatusesAgree(d.trail, d.requests) && OrderAgrees(d)
  }

  ghost predicate StatusesAgree(trail: seq<AuditEvent>, requests: map<Uuid, Request>) {
    Replay(trail) == Statuses(requests) && forall g :: TrailAgrees(trail, requests, g)
  }

  ghost predicate OrderAgrees(d: Desk) {
    && RequestedIds(d.trail) == d.order
    && Distinct(d.order) && SetOf(d.order) == d.requests.Keys
    && (forall id :: id in d.requests ==> d.requests[id].requestId == id)
  }

  ghost predicate TrailAgrees(trail: seq<AuditEvent>, requests: map<Uuid, Request>, engagement: string) {
    Replay(Trail(trail, engagement)) == StatusesOf(requests, engagement)
  }

  /** Each known request has one requested event, and one decision event unless it is
      pending; an unknown one has none. */
  ghost predicate Counted(d: Desk) {
    forall id :: CountedAt(d.trail, d.requests, id)
  }

  predicate CountedAt(trail: seq<AuditEvent>, requests: map<Uuid, Request>, id: Uuid) {
    && CountRequested(trail, id) == (if id in requests then 1 else 0)
    && CountDecided(trail, id) == (if id in requests && requests[id].status != Pending then 1 else 0)
  }

  lemma AppendReplay(trail: seq<AuditEvent>, e: AuditEvent)
    ensures Replay(trail + [e]) == Replay(trail)[e.requestId := StatusAfter(e.kind)]
  {
    assert (trail + [e])[..|trail|] == trail;
  }

  lemma AppendRequested(trail: seq<AuditEvent>, e: AuditEvent)
    ensures RequestedIds(trail + [e]) ==
      if e.kind.Requested? then RequestedIds(trail) + [e.requestId] else RequestedIds(trail)
  {
    assert (trail + [e])[..|trail|] == trail;
  }

  lemma AppendToTrail(trail: seq<AuditEvent>, e: AuditEvent, g: string)
    ensures Trail(trail + [e], g) == if e.engagement == g then Trail(trail, g) + [e] else Trail(trail, g)
  {
    assert (trail + [e])[..|trail|] == trail;
  }

  lemma AppendCounts(trail: seq<AuditEvent>, e: AuditEvent, id: Uuid)
    ensures CountRequested(trail + [e], id) ==
      CountRequested(trail, id) + if e.requestId == id && e.kind.Requested? then 1 else 0
    ensures CountDecided(trail + [e], id) ==
      CountDecided(trail, id) + if e.requestId == id && !e.kind.Requested? then 1 else 0
  {
    assert (trail + [e])[..|trail|] == trail;
  }

  /** Event `e` records that request `r` came to its present status. */
  predicate Records(e: AuditEvent, r: Request) {
    e.requestId == r.requestId && e.engagement == r.engagement && StatusAfter(e.kind) == r.status
  }

  lemma RecordKeepsAgreement(d: Desk, r: Request, e: AuditEvent, order: seq<Uuid>)
    requires Agrees(d) && Records(e, r)
    requires r.requestId in d.requests ==> d.requests[r.requestId].engagement == r.engagement
    requires e.kind.Requested? <==> r.requestId !in d.requests
    requires order == if e.kind.Requested? then d.order + [r.requestId] else d.order
    ensures Agrees(Desk(order, d.requests[r.requestId := r], d.trail + [e]))
  {
    RecordKeepsStatuses(d.trail, d.requests, r, e);
    RecordKeepsOrder(d, r, e, order);
  }

  lemma RecordKeepsOrder(d: Desk, r: Request, e: AuditEvent, order: seq<Uuid>)
    requires OrderAgrees(d) && Records(e, r)
    requires e.kind.Requested? <==> r.requestId !in d.requests
    requires order == if e.kind.Requested? then d.order + [r.requestId] else d.order
    ensures OrderAgrees(Desk(order, d.requests[r.requestId := r], d.trail + [e]))
  {
    AppendRequested(d.trail, e);
    if e.kind.Requested? {
      OrderGrows(d.order, r.requestId);
    } else {
      assert d.requests[r.requestId := r].Keys == d.requests.Keys;
    }
  }

  lemma RecordKeepsStatuses(trail: seq<AuditEvent>, requests: map<Uuid, Request>, r: Request, e: AuditEvent)
    requires StatusesAgree(trail, requests) && Records(e, r)
    requires r.requestId in requests ==> requests[r.requestId].engagement == r.engagement
    ensures StatusesAgree(trail + [e], requests[r.requestId := r])
  {
    var trail', requests' := trail + [e], requests[r.requestId := r];
    AppendReplay(trail, e);
    assert Statuses(requests') == Statuses(requests)[r.requestId := r.status];
    forall g
      ensures TrailAgrees(trail', requests', g)
    {
      RecordKeepsEngagement(trail, requests, r, e, g);
    }
  }

  lemma RecordKeepsEngagement(trail: seq<AuditEvent>, requests: map<Uuid, Request>, r: Request, e: AuditEvent,
                              g: string)
    requires TrailAgrees(trail, requests, g) && Records(e, r)
    requires r.requestId in requests ==> requests[r.requestId].engagement == r.engagement
    ensures TrailAgrees(trail + [e], requests[r.requestId := r], g)
  {
    AppendToTrail(trail, e, g);
    AppendReplay(Trail(trail, g), e);
    StatusesOfUpdate(requests, r, g);
  }

  lemma OrderGrows(order: seq<Uuid>, id: Uuid)
    requires Distinct(order) && id !in SetOf(order)
    ensures Distinct(order + [id]) && SetOf(order + [id]) == SetOf(order) + {id}
  {
    assert forall x :: x in order <==> x in SetOf(order);
  }

  lemma StatusesOfUpdate(requests: map<Uuid, Request>, r: Request, engagement: string)
    requires r.requestId in requests ==> requests[r.requestId].engagement == r.engagement
    ensures StatusesOf(requests[r.requestId := r], engagement) ==
      if r.engagement == engagement then StatusesOf(requests, engagement)[r.requestId := r.status]
      else StatusesOf(requests, engagement)
  {
  }

  lemma ApplyKeepsAgreement(d: Desk, op: Operation)
    requires Agrees(d) && Apply(d, op).Ok?
    ensures Agrees(Apply(d, op).value)
  {
    match op
    case Submit(id, engagement, actor, _) =>
      RecordKeepsAgreement(d, NewRequest(op), AuditEvent(engagement, Requested, actor, id), d.order + [id]);
    case Review(id, approve, actor, _) =>
      RecordKeepsAgreement(d, Reviewed(d.requests[id], op),
        AuditEvent(d.requests[id].engagement, Verdict(approve), actor, id), d.order);
  }

  lemma ApplyKeepsCounts(d: Desk, op: Operation)
    requires Counted(d) && Apply(d, op).Ok?
    ensures Counted(Apply(d, op).value)
  {
    var d' := Apply(d, op).value;
    forall id
      ensures CountedAt(d'.trail, d'.requests, id)
    {
      assert CountedAt(d.trail, d.requests, id) && CountedAt(d.trail, d.requests, op.id);
      AppendCounts(d.trail, d'.trail[|d.trail|], id);
    }
  }

  /** Every run of the workflow keeps state and trail in agreement. */
  lemma {:induction false} EveryRunAgrees(ops: seq<Operation>)
    ensures Agrees(Run(EMPTY, ops)) && Counted(Run(EMPTY, ops))
  {
    if ops != [] {
      var before, op := Run(EMPTY, ops[..|ops| - 1]), ops[|ops| - 1];
      EveryRunAgrees(ops[..|ops| - 1]);
      if Apply(before, op).Ok? {
        ApplyKeepsAgreement(before, op);
        ApplyKeepsCounts(before, op);
      }
    }
  }

  /** Along any run the trail only grows, requests never disappear, and a decision is final. */
  lemma {:induction false} HistoryIsFinal(d: Desk, ops: seq<Operation>)
    ensures d.trail <= Run(d, ops).trail
    ensures d.requests.Keys <= Run(d, ops).requests.Keys
    ensures forall id :: id in d.requests && d.requests[id].status != Pending ==>
      Run(d, ops).requests[id] == d.requests[id]
  {
    if ops != [] {
      HistoryIsFinal(d, ops[..|ops| - 1]);
    }
  }

  /** In any run a decision is recorded only after its request, and only once. */
  lemma {:induction false} DecisionFollowsRequest(ops: seq<Operation>, k: nat)
    requires k < |Run(EMPTY, ops).trail| && !Run(EMPTY, ops).trail[k].kind.Requested?
    ensures var trail := Run(EMPTY, ops).trail;
      && CountRequested(trail[..k], trail[k].requestId) == 1
      && CountDecided(trail[..k], trail[k].requestId) == 0
  {
    var n := |ops| - 1;
    if ops != [] {
      var before, after := Run(EMPTY, ops[..n]), Run(EMPTY, ops);
      if k < |before.trail| {
        DecisionFollowsRequest(ops[..n], k);
        assert after.trail[..k] == before.trail[..k];
      } else {
        EveryRunAgrees(ops[..n]);
        assert after.trail[..k] == before.trail;
        assert CountedAt(before.trail, before.requests, after.trail[k].requestId);
      }
    }
  }

  // ---- Pending requests ----

  function PendingAmong(d: Desk, ids: seq<Uuid>, engagement: string): seq<Uuid> {
    if ids == [] then []
    else
      var id := ids[|ids| - 1];
      PendingAmong(d, ids[..|ids| - 1], engagement)
      + if id in d.requests && d.requests[id].engagement == engagement && d.requests[id].status == Pending
        then [id] else []
  }

  function StillPending(replayed: map<Uuid, Status>, ids: seq<Uuid>): seq<Uuid> {
    if ids == [] then []
    else
      var id := ids[|ids| - 1];
      StillPending(replayed, ids[..|ids| - 1]) + if id in replayed && replayed[id] == Pending then [id] else []
  }

  lemma {:induction false} PendingIsStillPending(d: Desk, ids: seq<Uuid>, engagement: string)
    ensures PendingAmong(d, ids, engagement) == StillPending(StatusesOf(d.requests, engagement), ids)
  {
    if ids != [] {
      PendingIsStillPending(d, ids[..|ids| - 1], engagement);
    }
  }

  /** In any run the pending list of an engagement can be read off the trail alone. */
  lemma PendingFromTrail(ops: seq<Operation>, engagement: string)
    ensures var d := Run(EMPTY, ops);
      PendingAmong(d, d.order, engagement) == StillPending(Replay(Trail(d.trail, engagement)), RequestedIds(d.trail))
  {
    var d := Run(EMPTY, ops);
    EveryRunAgrees(ops);
    assert TrailAgrees(d.trail, d.requests, engagement);
    PendingIsStillPending(d, d.order, engagement);
  }

  // ---- The objects ----

  class ScopeModificationRequest {
    const requestId: Uuid
    const engagementId: string
    const requestedBy: string
    const proposedChanges: seq<ScopeChange>
    var status: Status
    var reviewedBy: Option<string>
    var reviewNote: Option<string>

    constructor (requestId: Uuid, engagementId: string, requestedBy: string, proposedChanges: seq<ScopeChange>)
      ensures View() == Request(requestId, engagementId, requestedBy, proposedChanges, Pending, None, None)
    {
      this.requestId, this.engagementId, this.requestedBy, this.proposedChanges :=
        requestId, engagementId, requestedBy, proposedChanges;
      status, reviewedBy, reviewNote := Pending, None, None;
    }

    method Decide(decision: Status, reviewer: string, note: string)
      modifies this
      ensures View() == old(View()).(status := decision, reviewedBy := Some(reviewer), note := Some(note))
    {
      status, reviewedBy, reviewNote := decision, Some(reviewer), Some(note);
    }

    ghost function View(): Request
      reads this
    {
      Request(requestId, engagementId, requestedBy, proposedChanges, status, reviewedBy, reviewNote)
    }
  }

  function IdsOf(requests: seq<ScopeModificationRequest>): seq<Uuid> {
    if requests == [] then [] else IdsOf(requests[..|requests| - 1]) + [requests[|requests| - 1].requestId]
  }

  ghost function Views(requests: map<Uuid, ScopeModificationRequest>): map<Uuid, Request>
    reads requests.Values
  {
    map id | id in requests :: requests[id].View()
  }

  lemma ViewsInsert(requests: map<Uuid, ScopeModificationRequest>, id: Uuid, r: ScopeModificationRequest)
    ensures Views(requests[id := r]) == Views(requests)[id := r.View()]
  {
  }

  class ModificationWorkflow {
    var order: seq<Uuid>
    var requests: map<Uuid, ScopeModificationRequest>
    var auditTrail: seq<AuditEvent>

    ghost function View(): Desk
      reads this, requests.Values
    {
      Desk(order, Views(requests), auditTrail)
    }

    ghost predicate Valid()
      reads this, requests.Values
    {
      Agrees(View()) && Counted(View())
    }

    constructor ()
      ensures Valid() && View() == EMPTY
    {
      order, requests, auditTrail := [], map[], [];
      new;
      EveryRunAgrees([]);
    }

    method SubmitRequest(id: Uuid, engagement: string, actor: string, changes: seq<ScopeChange>)
      returns (r: ScopeModificationRequest)
      requires Valid() && id !in requests
      modifies this
      ensures Valid() && fresh(r) && requests == old(requests)[id := r]
      ensures Ok(View()) == Apply(old(View()), Submit(id, engagement, actor, changes))
    {
      ghost var before, op := View(), Submit(id, engagement, actor, changes);
      ApplyKeepsAgreement(before, op);
      ApplyKeepsCounts(before, op);
      r := new ScopeModificationRequest(id, engagement, actor, changes);
      Store(r, AuditEvent(engagement, Requested, actor, id));
      assert View() == Apply(before, op).value;
    }

    method Store(r: ScopeModificationRequest, event: AuditEvent)
      modifies this
      ensures requests == old(requests)[r.requestId := r]
      ensures View() ==
        Desk(old(order) + [r.requestId], old(View()).requests[r.requestId := r.View()], old(auditTrail) + [event])
    {
      ViewsInsert(requests, r.requestId, r);
      order, requests, auditTrail := order + [r.requestId], requests[r.requestId := r], auditTrail + [event];
    }

    /** Approval and rejection differ only in the status set and the event recorded. */
    method ReviewRequest(id: Uuid, approve: bool, actor: string, note: string)
      returns (r: Result<ScopeModificationRequest, WorkflowError>)
      requires Valid()
      modifies this`auditTrail, requests.Values
      ensures Valid() && (r.Ok? ==> id in requests && r.value == requests[id])
      ensures match Apply(old(View()), Review(id, approve, actor, note))
        case Ok(d) => r.Ok? && View() == d
        case Err(e) => r == Err(e) && View() == old(View())
    {
      ghost var before, op := View(), Review(id, approve, actor, note);
      if id !in requests {
        return Err(UnknownRequest);
      }
      var req := requests[id];
      assert before.requests[id] == req.View();
      if req.status != Pending {
        return Err(AlreadyReviewed);
      }
      ApplyKeepsAgreement(before, op);
      ApplyKeepsCounts(before, op);
      forall k | k in requests
        ensures requests[k].requestId == k
      {
        assert before.requests[k].requestId == k;
      }
      req.Decide(if approve then Approved else Rejected, actor, note);
      assert Views(requests) == before.requests[id := Reviewed(before.requests[id], op)];
      auditTrail := auditTrail + [AuditEvent(req.engagementId, Verdict(approve), actor, id)];
      assert View() == Apply(before, op).value;
      r := Ok(req);
    }

    method PendingRequests(engagement: string) returns (pending: seq<ScopeModificationRequest>)
      requires Valid()
      ensures IdsOf(pending) == PendingAmong(View(), order, engagement)
      ensures IdsOf(pending) == StillPending(Replay(Trail(auditTrail, engagement)), RequestedIds(auditTrail))
      ensures forall r :: r in pending ==> r.requestId in requests && requests[r.requestId] == r
    {
      pending := [];
      ghost var d := View();
      for k := 0 to |order|
        invariant IdsOf(pending) == PendingAmong(d, order[..k], engagement)
        invariant forall r :: r in pending ==> r.requestId in requests && requests[r.requestId] == r
      {
        assert order[k] in SetOf(d.order) && order[..k + 1][..k] == order[..k];
        var req := requests[order[k]];
        assert d.requests[order[k]] == req.View();
        if req.engagementId == engagement && req.status == Pending {
          assert (pending + [req])[..|pending|] == pending;
          pending := pending + [req];
        }
      }
      assert order[..|order|] == order;
      assert TrailAgrees(d.trail, d.requests, engagement);
      PendingIsStillPending(d, order, engagement);
    }

    method GetAuditTrail(engagement: string) returns (events: seq<AuditEvent>)
      requires Valid()
      ensures events == Trail(auditTrail, engagement)
      ensures Replay(events) == StatusesOf(View().requests, engagement)
    {
      events := [];
      for k := 0 to |auditTrail|
        invariant events == Trail(auditTrail[..k], engagement)
      {
        assert auditTrail[..k + 1][..k] == auditTrail[..k];
        if auditTrail[k].engagement == engagement {
          events := events + [auditTrail[k]];
        }
      }
      assert auditTrail[..|auditTrail|] == auditTrail;
      assert TrailAgrees(auditTrail, View().requests, engagement);
    }
  }
}
