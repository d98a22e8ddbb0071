/** Circuit breaker (sdk/connector/circuit/breaker.go). Calls may interleave in any way;
    each is one critical section and reads a clock, in nanoseconds. */
module CircuitBreaker {

  datatype State = Closed | Open | HalfOpen

  /** `changes` lists the calls made to OnStateChange. */
  datatype Circuit = Circuit(threshold: int, timeout: int, state: State, fails: nat, openedAt: int, probing: bool,
                             changes: seq<(State, State)>)

  datatype Call = Allow(at: int) | Record(failed: bool, at: int) | Observe(at: int)

  function New(threshold: int, timeout: int): Circuit {
    Circuit(if threshold <= 0 then 5 else threshold, if timeout <= 0 then 30000000000 else timeout,
            Closed, 0, 0, false, [])
  }

  function Move(c: Circuit, next: State): Circuit {
    c.(state := next, changes := if c.state != next then c.changes + [(c.state, next)] else c.changes)
  }

  function Advance(c: Circuit, now: int): Circuit {
    if c.state.Open? && now - c.openedAt >= c.timeout then Move(c, HalfOpen) else c
  }

  /** Whether the request goes through; only `Allow` grants anything. */
  predicate Granted(c: Circuit, call: Call) {
    call.Allow? && var d := Advance(c, call.at); d.state.Closed? || (d.state.HalfOpen? && !d.probing)
  }

  function Step(c: Circuit, call: Call): Circuit {
    match call
    case Allow(now) =>
      var d := Advance(c, now);
      if d.state.HalfOpen? then d.(probing := true) else d
    case Record(failed, now) =>
      if !failed then Move(c, Closed).(fails := 0, probing := false)
      else
        var d := c.(fails := c.fails + 1, probing := false);
        if d.state.HalfOpen? || (d.state.Closed? && d.fails >= d.threshold)
        then Move(d, Open).(openedAt := now) else d
    case Observe(now) => Advance(c, now)
  }

  function Run(c: Circuit, calls: seq<Call>): Circuit {
    if calls == [] then c else Step(Run(c, calls[..|calls| - 1]), calls[|calls| - 1])
  }

  // ---- What a run says about the circuit ----

  /** Failures recorded since the last recorded success. */
  function FailureRun(calls: seq<Call>): nat {
    if calls == [] then 0
    else
      match calls[|calls| - 1]
      case Record(failed, _) => if failed then FailureRun(calls[..|calls| - 1]) + 1 else 0
      case _ => FailureRun(calls[..|calls| - 1])
  }

  /** Requests let through in half-open since the last recorded outcome. */
  function Probes(c: Circuit, calls: seq<Call>): nat {
    if calls == [] then 0
    else
      var front, call := calls[..|calls| - 1], calls[|calls| - 1];
      match call
      case Record(_, _) => 0
      case _ => Probes(c, front) + if Granted(Run(c, front), call) && Run(c, calls).state.HalfOpen? then 1 else 0
  }

  /** In every interleaving: the failure counter is the run of failures since the last
      success, the circuit is closed exactly while that run is below the threshold, and the
      probe flag says whether a probe went out since the last outcome, so at most one does. */
  lemma {:induction false} EveryRun(threshold: int, timeout: int, calls: seq<Call>)
    ensures var c := Run(New(threshold, timeout), calls);
      && c.threshold == New(threshold, timeout).threshold && c.timeout == New(threshold, timeout).timeout
      && c.fails == FailureRun(calls)
      && (c.state.Closed? <==> FailureRun(calls) < c.threshold)
      && (c.probing ==> c.state.HalfOpen?)
      && Probes(New(threshold, timeout), calls) == if c.probing then 1 else 0
  {
    if calls != [] {
      EveryRun(threshold, timeout, calls[..|calls| - 1]);
    }
  }

  // ---- Probes ----

  /** A request let through in half-open. */
  predicate Probed(c: Circuit, call: Call) {
    Granted(c, call) && Step(c, call).state.HalfOpen?
  }

  lemma {:induction false} ProbeBlocks(c: Circuit, calls: seq<Call>)
    requires c.state.HalfOpen? && c.probing && forall k :: 0 <= k < |calls| ==> !calls[k].Record?
    ensures Run(c, calls).state.HalfOpen? && Run(c, calls).probing
  {
    if calls != [] {
      ProbeBlocks(c, calls[..|calls| - 1]);
    }
  }

  /** In any run a second probe goes out only after an outcome was recorded. */
  lemma ProbeNeedsOutcome(c: Circuit, calls: seq<Call>, i: nat, j: nat)
    requires i < j < |calls| && Probed(Run(c, calls[..i]), calls[i]) && Probed(Run(c, calls[..j]), calls[j])
    ensures exists k :: i < k < j && calls[k].Record?
  {
    if forall k :: i < k < j ==> !calls[k].Record? {
      var between := calls[i + 1..j];
      assert calls[..i + 1][..i] == calls[..i] && calls[..j] == calls[..i + 1] + between;
      RunSplit(c, calls[..i + 1], between);
      ProbeBlocks(Run(c, calls[..i + 1]), between);
    }
  }

  lemma RunNext(c: Circuit, calls: seq<Call>, k: nat)
    requires k < |calls|
    ensures Run(c, calls[..k + 1]) == Step(Run(c, calls[..k]), calls[k])
  {
    assert calls[..k + 1][..k] == calls[..k];
  }

  // ---- The open period ----

  /** A circuit opens only by a recorded failure, which also starts the timeout. */
  lemma OpeningStartsTimeout(c: Circuit, call: Call)
    requires !c.state.Open? && Step(c, call).state.Open?
    ensures call.Record? && call.failed && Step(c, call).openedAt == call.at
  {
  }

  ghost predicate Quiet(calls: seq<Call>, until: int) {
    forall k :: 0 <= k < |calls| ==> calls[k].at < until && !(calls[k].Record? && !calls[k].failed)
  }

  /** While no success is recorded, an open circuit stays open and lets nothing through for
      the whole timeout; late failures do not prolong it. */
  lemma {:induction false} OpenForTimeout(c: Circuit, calls: seq<Call>)
    requires c.state.Open? && Quiet(calls, c.openedAt + c.timeout)
    ensures Run(c, calls).state.Open? && Run(c, calls).openedAt == c.openedAt && Run(c, calls).timeout == c.timeout
    ensures forall k :: 0 <= k < |calls| ==> !Granted(Run(c, calls[..k]), calls[k])
  {
    if calls != [] {
      var n := |calls| - 1;
      OpenForTimeout(c, calls[..n]);
      forall k | 0 <= k < |calls|
        ensures !Granted(Run(c, calls[..k]), calls[k])
      {
        if k < n {
          assert calls[..n][..k] == calls[..k] && calls[..n][k] == calls[k];
        }
      }
    }
  }

  lemma {:induction false} RunSplit(c: Circuit, a: seq<Call>, b: seq<Call>)
    ensures Run(c, a + b) == Run(Run(c, a), b)
  {
    if b == [] {
      assert a + b == a;
    } else {
      RunSplit(c, a, b[..|b| - 1]);
      assert (a + b)[..|a + b| - 1] == a + b[..|b| - 1];
    }
  }

  /** In any run: if call `i` opened the circuit and request `j` got through with no success
      recorded in between, the whole timeout has passed. */
  lemma GrantAfterOpening(c: Circuit, calls: seq<Call>, i: nat, j: nat)
    requires i < j < |calls| && forall k, l :: 0 <= k < l < |calls| ==> calls[k].at <= calls[l].at
    requires !Run(c, calls[..i]).state.Open? && Run(c, calls[..i + 1]).state.Open?
    requires forall k :: i < k < j ==> !(calls[k].Record? && !calls[k].failed)
    requires Granted(Run(c, calls[..j]), calls[j])
    ensures calls[j].at >= calls[i].at + Run(c, calls[..i + 1]).timeout
  {
    var tripped, between := Run(c, calls[..i + 1]), calls[i + 1..j + 1];
    assert calls[..i + 1][..i] == calls[..i];
    OpeningStartsTimeout(Run(c, calls[..i]), calls[i]);
    if calls[j].at < tripped.openedAt + tripped.timeout {
      assert calls[..j] == calls[..i + 1] + between[..j - i - 1] && between[j - i - 1] == calls[j];
      RunSplit(c, calls[..i + 1], between[..j - i - 1]);
      OpenForTimeout(tripped, between);
    }
  }

  /** In any run, an open circuit grants a request exactly when the timeout has passed. */
  lemma OpenGrantsIff(threshold: int, timeout: int, calls: seq<Call>, now: int)
    requires Run(New(threshold, timeout), calls).state.Open?
    ensures var c := Run(New(threshold, timeout), calls);
      Granted(c, Allow(now)) <==> now >= c.openedAt + c.timeout
  {
    EveryRun(threshold, timeout, calls);
  }

  // ---- State changes ----

  /** The changes listed in the package documentation. */
  const DOCUMENTED := {(Closed, Open), (Open, HalfOpen), (HalfOpen, Closed), (HalfOpen, Open)}

  /** Each call reports its state change, if any, once; and the change is a documented one
      unless a success is recorded while the circuit is open. */
  lemma ChangeIsDocumentedIff(c: Circuit, call: Call)
    ensures var d := Step(c, call);
      && d.changes == (if d.state != c.state then c.changes + [(c.state, d.state)] else c.changes)
      && (d.state != c.state ==>
            ((c.state, d.state) in DOCUMENTED <==> !(c.state.Open? && call.Record? && !call.failed)))
  {
  }

  /** Such a change happens: two requests go out, one fails and trips the circuit, then the
      other succeeds and closes it, without any probe. */
  lemma LateSuccessCloses()
    ensures var calls := [Allow(0), Allow(0), Record(true, 1), Record(false, 2)];
      Run(New(1, 10), calls).changes == [(Closed, Open), (Open, Closed)]
  {
    var c, calls := New(1, 10), [Allow(0), Allow(0), Record(true, 1), Record(false, 2)];
    RunNext(c, calls, 0);
    RunNext(c, calls, 1);
    RunNext(c, calls, 2);
    RunNext(c, calls, 3);
    assert calls[..0] == [] && calls[..4] == calls;
  }

  // ---- The object ----

  class Breaker {
    const threshold: int
    const timeout: int
    var state: State
    var consecutiveFails: nat
    var openedAt: int
    var halfOpenInFlight: bool
    var changes: seq<(State, State)>

    ghost function View(): Circuit
      reads this
    {
      Circuit(threshold, timeout, state, consecutiveFails, openedAt, halfOpenInFlight, changes)
    }

    constructor (threshold: int, timeout: int)
      ensures View() == New(threshold, timeout)
    {
      this.threshold := if threshold <= 0 then 5 else threshold;
      this.timeout := if timeout <= 0 then 30000000000 else timeout;
      state, consecutiveFails, openedAt, halfOpenInFlight, changes := Closed, 0, 0, false, [];
    }

    method AllowRequest(now: int) returns (granted: bool)
      modifies this
      ensures View() == Step(old(View()), Allow(now)) && granted == Granted(old(View()), Allow(now))
    {
      MaybeTransitionToHalfOpen(now);
      if state.Open? {
        return false;
      }
      if state.HalfOpen? {
        if halfOpenInFlight {
          return false;
        }
        halfOpenInFlight := true;
      }
      granted := true;
    }

    method RecordOutcome(failed: bool, now: int)
      modifies this
      ensures View() == Step(old(View()), Record(failed, now))
    {
      if !failed {
        if !state.Closed? {
          Transition(Closed);
        }
        consecutiveFails := 0;
        halfOpenInFlight := false;
        return;
      }
      halfOpenInFlight := false;
      consecutiveFails := consecutiveFails + 1;
      if state.HalfOpen? || (state.Closed? && consecutiveFails >= threshold) {
        Transition(Open);
        openedAt := now;
      }
    }

    /** Other callers, one critical section after the other. */
    method Interleave(calls: seq<Call>)
      modifies this
      ensures View() == Run(old(View()), calls)
    {
      for k := 0 to |calls|
        invariant View() == Run(old(View()), calls[..k])
      {
        assert calls[..k + 1][..k] == calls[..k];
        match calls[k] {
          case Allow(at) => var _ := AllowRequest(at);
          case Record(failed, at) => RecordOutcome(failed, at);
          case Observe(at) => var _ := CurrentState(at);
        }
      }
      assert calls[..|calls|] == calls;
    }

    /** A request that goes through is followed by its recorded outcome; `others` are the
        calls of other callers while the operation runs. */
    method Do(failed: bool, start: int, others: seq<Call>, end: int) returns (granted: bool)
      modifies this
      ensures granted == Granted(old(View()), Allow(start))
      ensures View() ==
        Run(old(View()), if granted then [Allow(start)] + others + [Record(failed, end)] else [Allow(start)])
    {
      ghost var before := View();
      granted := AllowRequest(start);
      RunSplit(before, [], [Allow(start)]);
      if granted {
        RunSplit(before, [Allow(start)], others);
        Interleave(others);
        RecordOutcome(failed, end);
        ghost var calls := [Allow(start)] + others;
        assert (calls + [Record(failed, end)])[..|calls|] == calls;
      }
    }

    method CurrentState(now: int) returns (s: State)
      modifies this
      ensures View() == Step(old(View()), Observe(now)) && s == state
    {
      MaybeTransitionToHalfOpen(now);
      s := state;
    }

    method Transition(next: State)
      modifies this
      ensures View() == Move(old(View()), next)
    {
      var prev := state;
      state := next;
      if prev != next {
        changes := changes + [(prev, next)];
      }
    }

    method MaybeTransitionToHalfOpen(now: int)
      modifies this
      ensures View() == Advance(old(View()), now)
    {
      if state.Open? && now - openedAt >= timeout {
        Transition(HalfOpen);
      }
    }
  }
}
