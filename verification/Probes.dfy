/** Probes of the circuit breaker, with each outcome tied to the request it answers: when can
    two of them be out at once (sdk/connector/circuit/breaker.go)? */
module Probes {
  import opened CircuitBreaker

  /** `Answer` records the outcome of the request made by operation `request`. */
  datatype Operation = Ask(at: int) | Answer(request: nat, failed: bool, at: int) | Look(at: int)

  function CallOf(o: Operation): Call {
    match o
    case Ask(at) => Allow(at)
    case Answer(_, failed, at) => Record(failed, at)
    case Look(at) => Observe(at)
  }

  function After(c: Circuit, os: seq<Operation>): Circuit {
    if os == [] then c else Step(After(c, os[..|os| - 1]), CallOf(os[|os| - 1]))
  }

  predicate GrantedAt(c: Circuit, os: seq<Operation>, i: nat) {
    i < |os| && Granted(After(c, os[..i]), CallOf(os[i]))
  }

  predicate ProbedAt(c: Circuit, os: seq<Operation>, i: nat) {
    i < |os| && Probed(After(c, os[..i]), CallOf(os[i]))
  }

  ghost predicate Answered(os: seq<Operation>, i: nat) {
    exists j :: 0 <= j < |os| && os[j].Answer? && os[j].request == i
  }

  /** The request went through and has no outcome yet. */
  ghost predicate Pending(c: Circuit, os: seq<Operation>, i: nat) {
    GrantedAt(c, os, i) && !Answered(os, i)
  }

  /** An outcome answers an earlier request that went through, and is its only one. */
  ghost predicate IsOutcome(c: Circuit, os: seq<Operation>, j: nat)
    requires j < |os| && os[j].Answer?
  {
    os[j].request < j && Pending(c, os[..j], os[j].request)
  }

  /** What callers and clock can do: outcomes answer requests, and time does not go back. */
  ghost predicate WellFormed(c: Circuit, os: seq<Operation>) {
    && (forall j :: 0 <= j < |os| && os[j].Answer? ==> IsOutcome(c, os, j))
    && (forall j, k :: 0 <= j < k < |os| ==> os[j].at <= os[k].at)
  }

  // ---- Runs and their prefixes ----

  lemma {:induction false} AfterIsRun(c: Circuit, os: seq<Operation>)
    ensures After(c, os) == Run(c, seq(|os|, k requires 0 <= k < |os| => CallOf(os[k])))
  {
    if os != [] {
      var n := |os| - 1;
      AfterIsRun(c, os[..n]);
      var calls := seq(|os|, k requires 0 <= k < |os| => CallOf(os[k]));
      assert calls[..n] == seq(n, k requires 0 <= k < n => CallOf(os[..n][k]));
    }
  }

  lemma AfterNext(c: Circuit, os: seq<Operation>, k: nat)
    requires k < |os|
    ensures After(c, os[..k + 1]) == Step(After(c, os[..k]), CallOf(os[k]))
  {
    assert os[..k + 1][..k] == os[..k];
  }

  /** What happened to a request does not depend on what came later. */
  lemma PrefixDecides(c: Circuit, os: seq<Operation>, n: nat, i: nat)
    requires i < n <= |os|
    ensures GrantedAt(c, os, i) <==> GrantedAt(c, os[..n], i)
    ensures ProbedAt(c, os, i) <==> ProbedAt(c, os[..n], i)
    ensures Answered(os[..n], i) ==> Answered(os, i)
  {
    assert os[..n][..i] == os[..i];
  }

  // ---- One probe at a time ----

  /** From a probe on, as long as no outcome is recorded, the circuit stays half-open with the
      probe flag set, and nothing goes through. */
  lemma {:induction false} ProbeHolds(c: Circuit, os: seq<Operation>, i: nat, k: nat)
    requires ProbedAt(c, os, i) && i < k <= |os|
    requires forall j :: i < j < k ==> !os[j].Answer?
    ensures After(c, os[..k]).state.HalfOpen? && After(c, os[..k]).probing
  {
    AfterNext(c, os, k - 1);
    if i < k - 1 {
      ProbeHolds(c, os, i, k - 1);
    }
  }

  /** No request but the last of `os`, a probe, waits for its outcome. */
  ghost predicate OnlyProbePending(c: Circuit, os: seq<Operation>) {
    forall j :: 0 <= j < |os| - 1 ==> !Pending(c, os, j)
  }

  lemma NextIsNoAnswer(c: Circuit, past: seq<Operation>, os: seq<Operation>, i: nat, k: nat)
    requires WellFormed(c, os) && ProbedAt(c, os, i) && Pending(c, os, i) && i < k < |os|
    requires past == os[..i + 1] && OnlyProbePending(c, past)
    requires forall j :: i < j < k ==> !os[j].Answer?
    ensures !os[k].Answer?
  {
    if os[k].Answer? {
      var r := os[k].request;
      assert IsOutcome(c, os, k);
      PrefixDecides(c, os, k, r);
      if r < i {
        AnsweredEarlier(c, past, os, k, r);
      } else if r > i {
        ProbeHolds(c, os, i, r);
      }
    }
  }

  lemma AnsweredEarlier(c: Circuit, past: seq<Operation>, os: seq<Operation>, k: nat, r: nat)
    requires r < |past| - 1 && |past| <= k <= |os| && past == os[..|past|]
    requires GrantedAt(c, os, r) && !Pending(c, past, r)
    ensures Answered(os[..k], r)
  {
    PrefixDecides(c, os, |past|, r);
    var j :| 0 <= j < |past| && past[j].Answer? && past[j].request == r;
    assert os[..k][j] == os[j];
  }

  /** If no other request was pending when the probe went out, no outcome is recorded before
      that of the probe. */
  lemma {:induction false} OnlyProbeAnswers(c: Circuit, past: seq<Operation>, os: seq<Operation>, i: nat, k: nat)
    requires WellFormed(c, os) && ProbedAt(c, os, i) && Pending(c, os, i) && i < k <= |os|
    requires past == os[..i + 1] && OnlyProbePending(c, past)
    ensures forall j :: i < j < k ==> !os[j].Answer?
  {
    if i + 1 < k {
      OnlyProbeAnswers(c, past, os, i, k - 1);
      NextIsNoAnswer(c, past, os, i, k - 1);
    }
  }

  /** While the probe at the end of `os` is out, no second one can go out. */
  ghost predicate Alone(c: Circuit, os: seq<Operation>)
    requires os != []
  {
    forall more, k :: Follows(c, os, more) && |os| <= k < |os + more| ==> !ProbedAt(c, os + more, k)
  }

  /** `more` may come after `os`, and leaves the last request of `os` without an outcome. */
  ghost predicate Follows(c: Circuit, os: seq<Operation>, more: seq<Operation>)
    requires os != []
  {
    WellFormed(c, os + more) && Pending(c, os + more, |os| - 1)
  }

  lemma NoOtherPendingIsAlone(c: Circuit, os: seq<Operation>)
    requires os != [] && ProbedAt(c, os, |os| - 1) && OnlyProbePending(c, os)
    ensures Alone(c, os)
  {
    var i := |os| - 1;
    forall more, k | Follows(c, os, more) && |os| <= k < |os + more|
      ensures !ProbedAt(c, os + more, k)
    {
      var all := os + more;
      assert all[..i + 1] == os;
      PrefixDecides(c, all, i + 1, i);
      OnlyProbeAnswers(c, os, all, i, k);
      ProbeHolds(c, all, i, k);
    }
  }

  /** The failure of another pending request opens the circuit again, and after the timeout a
      second probe goes out. */
  function Relapse(c: Circuit, os: seq<Operation>, j: nat): seq<Operation>
    requires os != []
  {
    var t := os[|os| - 1].at;
    [Answer(j, true, t), Ask(t + c.timeout)]
  }

  lemma {:induction false} TimeoutStays(c: Circuit, os: seq<Operation>)
    ensures After(c, os).timeout == c.timeout
  {
    if os != [] {
      TimeoutStays(c, os[..|os| - 1]);
    }
  }

  lemma RelapseIsWellFormed(c: Circuit, os: seq<Operation>, j: nat)
    requires os != [] && WellFormed(c, os) && Pending(c, os, j) && c.timeout > 0
    ensures WellFormed(c, os + Relapse(c, os, j))
  {
    var n, all := |os|, os + Relapse(c, os, j);
    forall k | 0 <= k < |all| && all[k].Answer?
      ensures IsOutcome(c, all, k)
    {
      if k < n {
        assert IsOutcome(c, os, k) && all[..k] == os[..k];
      } else {
        assert all[..n] == os;
      }
    }
  }

  lemma RelapseProbes(c: Circuit, os: seq<Operation>, j: nat)
    requires os != [] && WellFormed(c, os) && j < |os| - 1 && c.timeout > 0
    requires Pending(c, os, j) && ProbedAt(c, os, |os| - 1)
    ensures var all := os + Relapse(c, os, j);
      Pending(c, all, |os| - 1) && ProbedAt(c, all, |os| + 1) && Pending(c, all, |os| + 1)
  {
    var n, all := |os|, os + Relapse(c, os, j);
    assert all[..n] == os && os[..n] == os;
    AfterNext(c, os, n - 1);
    TimeoutStays(c, os);
    RelapseReopens(After(c, os), os[n - 1].at, c.timeout);
    AfterNext(c, all, n);
    PrefixDecides(c, all, n, n - 1);
    NotAnsweredYet(c, os, n - 1);
    NotAnsweredYet(c, os, n + 1);
  }

  lemma RelapseReopens(c: Circuit, t: int, timeout: int)
    requires c.state.HalfOpen? && c.timeout == timeout
    ensures Probed(Step(c, Record(true, t)), Allow(t + timeout))
  {
  }

  lemma NotAnsweredYet(c: Circuit, os: seq<Operation>, i: nat)
    requires WellFormed(c, os) && |os| <= i + 1
    ensures !Answered(os, i)
  {
    forall k | 0 <= k < |os| && os[k].Answer?
      ensures os[k].request != i
    {
      assert IsOutcome(c, os, k);
    }
  }

  /** One probe at a time: no second probe can go out while the one at the end of `os` is
      unanswered, exactly when every request before it that went through has been answered. */
  lemma OneProbeIff(threshold: int, timeout: int, os: seq<Operation>)
    requires var c := New(threshold, timeout); os != [] && WellFormed(c, os) && ProbedAt(c, os, |os| - 1)
    ensures var c := New(threshold, timeout);
      Alone(c, os) <==> OnlyProbePending(c, os)
  {
    var c := New(threshold, timeout);
    if OnlyProbePending(c, os) {
      NoOtherPendingIsAlone(c, os);
    } else {
      var j :| 0 <= j < |os| - 1 && Pending(c, os, j);
      RelapseIsWellFormed(c, os, j);
      RelapseProbes(c, os, j);
      assert Follows(c, os, Relapse(c, os, j));
    }
  }

  /** An instance: two requests go out, the failure of one opens the circuit, a probe follows,
      and then the failure of the other frees the way for a second probe. */
  lemma LateOutcomeFreesProbe()
    ensures var c, os := New(1, 10), [Ask(0), Ask(0), Answer(0, true, 1), Ask(11), Answer(1, true, 11), Ask(21)];
      && WellFormed(c, os)
      && ProbedAt(c, os, 3) && Pending(c, os, 3)
      && ProbedAt(c, os, 5) && Pending(c, os, 5)
  {
    var c, os := New(1, 10), [Ask(0), Ask(0), Answer(0, true, 1), Ask(11)];
    FirstProbe();
    RelapseIsWellFormed(c, os, 1);
    RelapseProbes(c, os, 1);
    var all := os + Relapse(c, os, 1);
    assert all == [Ask(0), Ask(0), Answer(0, true, 1), Ask(11), Answer(1, true, 11), Ask(21)];
    PrefixDecides(c, all, 4, 3);
    assert all[..4] == os;
  }

  lemma FirstProbe()
    ensures var c, os := New(1, 10), [Ask(0), Ask(0), Answer(0, true, 1), Ask(11)];
      WellFormed(c, os) && ProbedAt(c, os, 3) && Pending(c, os, 1)
  {
    var c, os := New(1, 10), [Ask(0), Ask(0), Answer(0, true, 1), Ask(11)];
    AfterNext(c, os, 0);
    AfterNext(c, os, 1);
    AfterNext(c, os, 2);
    assert os[..0] == [];
    PrefixDecides(c, os, 2, 0);
    assert forall j :: 0 <= j < 2 ==> !os[..2][j].Answer?;
    assert IsOutcome(c, os, 2);
  }
}
