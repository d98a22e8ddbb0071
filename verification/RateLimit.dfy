/** Sliding-window rate limiter over a Redis sorted set (shared/cache/ratelimit.go).
    Times are in nanoseconds; scores are in milliseconds. */
module SlidingWindow {
  import opened Common

  /** A sorted set and the instant its key expires. The members are request times. */
  datatype ZSet = ZSet(members: map<nat, int>, expiresAt: int)

  const MS := 1000000
  const SECOND := 1000000000
  const EMPTY := ZSet(map[], 0)

  /** Unix time in whole milliseconds. */
  function Ms(t: int): int {
    t / MS
  }

  /** What the server still holds under the key. */
  function Live(z: ZSet, now: int): map<nat, int> {
    if now >= z.expiresAt then map[] else z.members
  }

  function Prune(m: map<nat, int>, upTo: int): map<nat, int> {
    map k | k in m && m[k] > upTo :: m[k]
  }

  /** Go's conversion truncates towards zero. */
  function ExpireSeconds(window: int): int {
    (if window >= 0 then window / SECOND else -(-window / SECOND)) + 1
  }

  /** The pipeline: prune, add the request, reset the expiry. */
  function Pipeline(z: ZSet, now: nat, window: int): ZSet {
    ZSet(Prune(Live(z, now), Ms(now - window))[now := Ms(now)], now + ExpireSeconds(window) * SECOND)
  }

  function CountOf(z: ZSet, now: nat, window: int): nat {
    |Pipeline(z, now, window).members|
  }

  ghost predicate IsOldest(m: map<nat, int>, score: int) {
    (exists k :: k in m && m[k] == score) && forall k :: k in m ==> score <= m[k]
  }

  function RetryAt(oldest: int, now: nat, window: int): int {
    var resetsAt := oldest * MS + window;
    if resetsAt > now then resetsAt - now else 0
  }

  // ---- Runs of requests under one key ----

  ghost predicate Increasing(times: seq<nat>) {
    forall i, j :: 0 <= i < j < |times| ==> times[i] < times[j]
  }

  function Run(times: seq<nat>, window: int): ZSet {
    if times == [] then EMPTY else Pipeline(Run(times[..|times| - 1], window), times[|times| - 1], window)
  }

  /** The latest request, and those before it whose millisecond lies after the window's start. */
  function Window(times: seq<nat>, window: int): set<nat>
    requires times != []
  {
    var now := times[|times| - 1];
    set t | t in times && (t == now || Ms(t) > Ms(now - window))
  }

  predicate Allowed(times: seq<nat>, window: int, limit: int)
    requires times != []
  {
    CountOf(Run(times[..|times| - 1], window), times[|times| - 1], window) <= limit
  }

  lemma MsFacts(a: int, b: int)
    ensures a <= b ==> Ms(a) <= Ms(b)
    ensures a + MS <= b ==> Ms(a) < Ms(b)
    ensures Ms(a) * MS <= a < (Ms(a) + 1) * MS
    ensures Ms(a + b * MS) == Ms(a) + b && Ms(a - b * MS) == Ms(a) - b
  {
  }

  /** `m` holds `last` and the times whose score is above `start`, with their scores. */
  ghost predicate Holds(m: map<nat, int>, times: seq<nat>, score: int -> int, start: int, last: nat) {
    forall t :: (t in m <==> t in times && (t == last || score(t) > start)) && (t in m ==> m[t] == score(t))
  }

  lemma AddHolds(m: map<nat, int>, front: seq<nat>, last: nat, now: nat, score: int -> int, start: int, start': int)
    requires Holds(m, front, score, start, last) && start <= start'
    ensures Holds(Prune(m, start')[now := score(now)], front + [now], score, start', now)
  {
  }

  lemma AddHoldsAfterExpiry(front: seq<nat>, now: nat, score: int -> int, start': int)
    requires forall t :: t in front ==> score(t) <= start'
    ensures Holds(Prune(map[], start')[now := score(now)], front + [now], score, start', now)
  {
  }

  /** The state after the requests `times`: the set is the current window, and the key
      outlives it. */
  ghost predicate Tracks(z: ZSet, times: seq<nat>, window: int) {
    if times == [] then z == EMPTY
    else
      var last := times[|times| - 1];
      Holds(z.members, times, Ms, Ms(last - window), last) && z.expiresAt > last + window
  }

  lemma PipelineTracks(z: ZSet, front: seq<nat>, now: nat, window: int)
    requires Tracks(z, front, window) && Increasing(front + [now])
    ensures Tracks(Pipeline(z, now, window), front + [now], window)
  {
    ExpiryOutlivesWindow(window);
    if front == [] || now >= z.expiresAt {
      forall t | t in front
        ensures Ms(t) <= Ms(now - window)
      {
        var last := |front| - 1;
        var k :| 0 <= k < |front| && front[k] == t;
        assert (front + [now])[k] <= (front + [now])[last];
        MsFacts(t, now - window);
      }
      AddHoldsAfterExpiry(front, now, Ms, Ms(now - window));
    } else {
      var last := front[|front| - 1];
      assert (front + [now])[|front| - 1] < (front + [now])[|front|];
      MsFacts(last - window, now - window);
      AddHolds(z.members, front, last, now, Ms, Ms(last - window), Ms(now - window));
    }
  }

  /** The sorted set holds exactly the requests of the current window: neither pruning at
      earlier calls nor expiry of the key ever loses one that still counts. */
  lemma {:induction false} RunTracks(times: seq<nat>, window: int)
    requires Increasing(times)
    ensures Tracks(Run(times, window), times, window)
  {
    if times != [] {
      var n := |times| - 1;
      var z := Run(times[..n], window);
      RunTracks(times[..n], window);
      assert times == times[..n] + [times[n]];
      PipelineTracks(z, times[..n], times[n], window);
      assert Tracks(Pipeline(z, times[n], window), times, window);
    }
  }

  /** The count a request gets is the number of requests in its window. */
  lemma RunIsWindow(times: seq<nat>, window: int)
    requires times != [] && Increasing(times)
    ensures CountOf(Run(times[..|times| - 1], window), times[|times| - 1], window) == |Window(times, window)|
    ensures Tracks(Run(times, window), times, window)
  {
    RunTracks(times, window);
    HoldsIsWindow(Run(times, window).members, times, window);
  }

  lemma ExpiryOutlivesWindow(window: int)
    ensures ExpireSeconds(window) * SECOND > window
  {
  }

  lemma HoldsIsWindow(m: map<nat, int>, times: seq<nat>, window: int)
    requires times != [] && Holds(m, times, Ms, Ms(times[|times| - 1] - window), times[|times| - 1])
    ensures m.Keys == Window(times, window) && |m| == |Window(times, window)|
  {
    assert |m| == |m.Keys|;
  }

  // ---- The limit ----

  /** Requests that are pairwise inside one window, all allowed, are at most `limit`. */
  lemma ClusterIsLimited(times: seq<nat>, window: int, limit: int, cluster: set<nat>, last: nat)
    requires Increasing(times)
    requires last in cluster && forall k :: k in cluster ==> k <= last < |times|
    requires Allowed(times[..last + 1], window, limit)
    requires forall k :: k in cluster ==> Ms(times[k]) > Ms(times[last] - window)
    ensures |cluster| <= limit
  {
    var past := times[..last + 1];
    RunIsWindow(past, window);
    assert past[..last] == times[..last] && past[last] == times[last];
    ImageSize(times, cluster);
    ClusterInWindow(times, window, cluster, last);
    SubsetSize(set k | k in cluster :: times[k], Window(past, window));
  }

  lemma ClusterInWindow(times: seq<nat>, window: int, cluster: set<nat>, last: nat)
    requires forall k :: k in cluster ==> k <= last < |times|
    requires last < |times| && forall k :: k in cluster ==> Ms(times[k]) > Ms(times[last] - window)
    ensures (set k | k in cluster :: times[k]) <= Window(times[..last + 1], window)
  {
    forall k | k in cluster
      ensures times[k] in Window(times[..last + 1], window)
    {
      assert times[..last + 1][k] == times[k];
    }
  }

  lemma {:induction false} ImageSize(times: seq<nat>, ks: set<nat>)
    requires Increasing(times) && forall k :: k in ks ==> k < |times|
    ensures |set k | k in ks :: times[k]| == |ks|
  {
    if ks != {} {
      var x :| x in ks;
      var rest := ks - {x};
      ImageSize(times, rest);
      var image := set k | k in rest :: times[k];
      assert times[x] !in image;
      assert (set k | k in ks :: times[k]) == image + {times[x]};
      assert ks == rest + {x};
    }
  }

  lemma {:induction false} Latest(ks: set<nat>) returns (last: nat)
    requires ks != {}
    ensures last in ks && forall k :: k in ks ==> k <= last
  {
    var x :| x in ks;
    if ks == {x} {
      last := x;
    } else {
      var y := Latest(ks - {x});
      last := if x > y then x else y;
      assert ks == (ks - {x}) + {x};
    }
  }

  /** With a window of whole milliseconds, any `window` consecutive milliseconds contain at
      most `limit` allowed requests. */
  lemma MillisecondWindowIsLimited(times: seq<nat>, ms: nat, limit: nat, lo: int, allowed: set<nat>)
    requires Increasing(times) && ms > 0
    requires forall k :: k in allowed ==>
      k < |times| && lo < Ms(times[k]) <= lo + ms && Allowed(times[..k + 1], ms * MS, limit)
    ensures |allowed| <= limit
  {
    if allowed != {} {
      var last := Latest(allowed);
      MsFacts(times[last], ms);
      ClusterIsLimited(times, ms * MS, limit, allowed, last);
    }
  }

  /** In nanoseconds the same holds, for any window, of intervals one millisecond shorter. */
  lemma NanosecondWindowIsLimited(times: seq<nat>, window: int, limit: nat, lo: int, allowed: set<nat>)
    requires Increasing(times)
    requires forall k :: k in allowed ==>
      k < |times| && lo <= times[k] <= lo + window - MS && Allowed(times[..k + 1], window, limit)
    ensures |allowed| <= limit
  {
    if allowed != {} {
      var last := Latest(allowed);
      forall k | k in allowed
        ensures Ms(times[k]) > Ms(times[last] - window)
      {
        MsFacts(times[last] - window, times[k]);
      }
      ClusterIsLimited(times, window, limit, allowed, last);
    }
  }

  /** The allowed requests at positions `ks` fall into `span` nanoseconds from `lo`. */
  ghost predicate AllowedWithin(times: seq<nat>, window: int, limit: nat, lo: int, span: int, ks: set<nat>) {
    && Increasing(times)
    && forall k :: k in ks ==> k < |times| && lo <= times[k] <= lo + span && Allowed(times[..k + 1], window, limit)
  }

  /** In every run, no closed interval of `span` nanoseconds holds more than `limit` allowed requests. */
  ghost predicate LimitHolds(window: int, limit: nat, span: int) {
    forall times, lo, ks :: AllowedWithin(times, window, limit, lo, span, ks) ==> |ks| <= limit
  }

  /** The limit holds of an interval exactly when it is a millisecond shorter than the window,
      or too short for more requests than the limit. */
  lemma LimitHoldsIff(window: int, limit: nat, span: int)
    ensures LimitHolds(window, limit, span) <==> limit == 0 || span <= window - MS || span < limit
  {
    forall times, lo, ks | AllowedWithin(times, window, limit, lo, span, ks)
      ensures limit == 0 || span <= window - MS || span < limit ==> |ks| <= limit
    {
      if limit == 0 {
        NothingAllowed(times, window, lo, span, ks);
      } else if span <= window - MS {
        NanosecondWindowIsLimited(times, window, limit, lo, ks);
      } else if span < limit {
        FewInstants(times, window, limit, lo, span, ks);
      }
    }
    if limit > 0 && span > window - MS && span >= limit {
      EdgeBreaksLimit(window, limit, span);
    }
  }

  lemma NothingAllowed(times: seq<nat>, window: int, lo: int, span: int, ks: set<nat>)
    requires AllowedWithin(times, window, 0, lo, span, ks)
    ensures ks == {}
  {
    if k :| k in ks {
      LatestCounts(times, window, k);
    }
  }

  lemma LatestCounts(times: seq<nat>, window: int, k: nat)
    requires Increasing(times) && k < |times|
    ensures !Allowed(times[..k + 1], window, 0)
  {
    var past := times[..k + 1];
    RunIsWindow(past, window);
    assert past[k] in Window(past, window);
  }

  lemma FewInstants(times: seq<nat>, window: int, limit: nat, lo: int, span: int, ks: set<nat>)
    requires AllowedWithin(times, window, limit, lo, span, ks) && span < limit
    ensures |ks| <= limit
  {
    if k :| k in ks {
      assert lo <= times[k] <= lo + span;
      ImageSize(times, ks);
      SubsetSize<int>(set k | k in ks :: times[k], Instants(lo, span + 1));
    }
  }

  function Instants(lo: int, n: nat): (s: set<int>)
    ensures forall t :: t in s <==> lo <= t < lo + n
    ensures |s| == n
  {
    if n == 0 then {} else Instants(lo, n - 1) + {lo + n - 1}
  }

  function Positions(n: nat): (s: set<nat>)
    ensures forall k :: k in s <==> 0 <= k < n
    ensures |s| == n
  {
    if n == 0 then {} else Positions(n - 1) + {n - 1}
  }

  /** `limit` requests from the last nanosecond of a millisecond on, and one more as soon as
      the first of them has left the window. */
  function EdgeAt(window: int, limit: nat, k: nat): nat {
    if k < limit || window < MS - 1 + k then MS - 1 + k else window
  }

  function EdgeRun(window: int, limit: nat): (times: seq<nat>)
    ensures |times| == limit + 1 && forall k :: 0 <= k <= limit ==> times[k] == EdgeAt(window, limit, k)
  {
    seq(limit + 1, k requires 0 <= k => EdgeAt(window, limit, k))
  }

  lemma EdgeBreaksLimit(window: int, limit: nat, span: int)
    requires limit > 0 && span > window - MS && span >= limit
    ensures !LimitHolds(window, limit, span)
  {
    EdgeRunIsAllowed(window, limit, span);
    assert |Positions(limit + 1)| > limit;
  }

  lemma EdgeRunIsAllowed(window: int, limit: nat, span: int)
    requires limit > 0 && span > window - MS && span >= limit
    ensures AllowedWithin(EdgeRun(window, limit), window, limit, MS - 1, span, Positions(limit + 1))
  {
    var times := EdgeRun(window, limit);
    EdgeIncreases(window, limit);
    forall k | k in Positions(limit + 1)
      ensures k < |times| && MS - 1 <= times[k] <= MS - 1 + span && Allowed(times[..k + 1], window, limit)
    {
      EdgeIsWithin(window, limit, span, k);
      EdgeIsAllowed(times, window, limit, k);
    }
  }

  lemma EdgeIncreases(window: int, limit: nat)
    ensures Increasing(EdgeRun(window, limit))
  {
  }

  lemma EdgeIsWithin(window: int, limit: nat, span: int, k: nat)
    requires span > window - MS && span >= limit && k <= limit
    ensures MS - 1 <= EdgeAt(window, limit, k) <= MS - 1 + span
  {
  }

  lemma EdgeIsAllowed(times: seq<nat>, window: int, limit: nat, k: nat)
    requires 0 < limit && k <= limit && times == EdgeRun(window, limit)
    ensures Allowed(times[..k + 1], window, limit)
  {
    EdgeIncreases(window, limit);
    if k < limit {
      FewAreAllowed(times[..k + 1], window, limit);
    } else {
      MsFacts(0, times[k] - window);
      OneHasLeft(times[..k + 1], window, limit);
    }
  }

  lemma FewAreAllowed(times: seq<nat>, window: int, limit: nat)
    requires times != [] && Increasing(times) && |times| <= limit
    ensures Allowed(times, window, limit)
  {
    RunIsWindow(times, window);
    DistinctSize(times);
    SubsetSize(Window(times, window), SetOf(times));
  }

  lemma OneHasLeft(times: seq<nat>, window: int, limit: nat)
    requires |times| > 1 && Increasing(times) && |times| <= limit + 1
    requires Ms(times[0]) <= Ms(times[|times| - 1] - window)
    ensures Allowed(times, window, limit)
  {
    RunIsWindow(times, window);
    DistinctSize(times);
    assert times[0] in SetOf(times) && times[0] !in Window(times, window);
    SubsetSize(Window(times, window), SetOf(times) - {times[0]});
  }

  /** So with a limit of one per second, requests less than a second apart can both pass. */
  lemma TwoWithinOneSecond()
    ensures EdgeRun(SECOND, 1) == [999999, SECOND]
    ensures AllowedWithin([999999, SECOND], SECOND, 1, 999999, SECOND - 1, {0, 1})
    ensures !LimitHolds(SECOND, 1, SECOND - 1)
  {
    EdgeRunIsAllowed(SECOND, 1, SECOND - 1);
    EdgeBreaksLimit(SECOND, 1, SECOND - 1);
    assert Positions(2) == {0, 1};
  }

  // ---- Retry-After ----

  /** Further requests under the key, by any client. */
  function After(z: ZSet, times: seq<nat>, window: int): ZSet {
    if times == [] then z else Pipeline(After(z, times[..|times| - 1], window), times[|times| - 1], window)
  }

  lemma {:induction false} RunGoesOn(past: seq<nat>, more: seq<nat>, window: int)
    ensures After(Run(past, window), more, window) == Run(past + more, window)
  {
    if more == [] {
      assert past + more == past;
    } else {
      var n := |more| - 1;
      RunGoesOn(past, more[..n], window);
      assert (past + more)[..|past| + n] == past + more[..n];
    }
  }

  /** The hint computed from what the second round trip finds. */
  ghost predicate IsHint(held: map<nat, int>, now: nat, window: int, retryAfter: int) {
    if held == map[] then retryAfter == 0
    else exists oldest :: IsOldest(held, oldest) && retryAfter == RetryAt(oldest, now, window)
  }

  /** Unless it leaves the window before `now`, the oldest request counts at any instant `later`
      exactly if the hint has not run out by then. */
  lemma RetryAfterIsExact(oldest: int, now: nat, window: int, later: int)
    requires oldest * MS + window >= now
    ensures oldest > Ms(later - window) <==> later < now + RetryAt(oldest, now, window)
  {
    MsBelow(later - window, oldest);
  }

  /** Request `k` still counts at the server at the instant `at`: its key has not expired, and
      the last request has not pruned it. */
  predicate StillHeld(times: seq<nat>, window: int, k: nat, at: nat)
    requires k < |times|
  {
    var last := times[|times| - 1];
    at < last + ExpireSeconds(window) * SECOND && (times[k] == last || Ms(times[k]) > Ms(last - window))
  }

  lemma {:induction false} ExpiryIsSet(times: seq<nat>, window: int)
    requires times != []
    ensures Run(times, window).expiresAt == times[|times| - 1] + ExpireSeconds(window) * SECOND
  {
  }

  lemma HeldIff(times: seq<nat>, window: int, k: nat, at: nat)
    requires Increasing(times) && k < |times|
    ensures times[k] in Live(Run(times, window), at) <==> StillHeld(times, window, k, at)
  {
    RunIsWindow(times, window);
    ExpiryIsSet(times, window);
    assert times[k] in times;
  }

  /** A request is held as long as it is in the window of the instant `at`. */
  lemma HeldWhileInWindow(times: seq<nat>, window: int, k: nat, at: nat)
    requires Increasing(times) && k < |times| && times[|times| - 1] <= at
    requires Ms(at - window) < Ms(times[k])
    ensures StillHeld(times, window, k, at)
  {
    var last := times[|times| - 1];
    ExpiryOutlivesWindow(window);
    MsFacts(last - window, at - window);
    MsFacts(times[k], at - window);
  }

  /** A refused request `k` gets a hint from what is held at `at`, after all of `times`. With a
      window of a millisecond or more, the hint is positive and no longer than the window
      exactly if the request is still held, and it never names an instant already past. With a
      shorter one it is, if the request is held and the clock tells the window's ends apart. */
  lemma RetryInRangeIff(times: seq<nat>, window: int, k: nat, at: nat, retry: int)
    requires Increasing(times) && k < |times|
    requires IsHint(Live(Run(times, window), at), times[k], window, retry)
    ensures window >= MS ==> (0 < retry <= window <==> StillHeld(times, window, k, at))
    ensures Ms(times[k] - window) < Ms(times[k]) && StillHeld(times, window, k, at) ==> 0 < retry <= window
  {
    var held, now := Live(Run(times, window), at), times[k];
    HeldIff(times, window, k, at);
    if held != map[] {
      var oldest :| IsOldest(held, oldest) && retry == RetryAt(oldest, now, window);
      MsFacts(now - window, now);
      RetryArithmetic(oldest, now, window);
      if now in held && Ms(now - window) < Ms(now) {
        OldestIsInWindow(times, window, k, oldest);
      }
      if window >= MS {
        OldestIsLater(times, window, k, at, oldest);
      }
    }
  }

  lemma RetryArithmetic(oldest: int, now: nat, window: int)
    ensures RetryAt(oldest, now, window) > 0 <==> Ms(now - window) < oldest
    ensures RetryAt(oldest, now, window) > 0 ==> (RetryAt(oldest, now, window) <= window <==> oldest <= Ms(now))
  {
    MsBelow(now - window, oldest);
    MsBelow(now, oldest);
    MsFacts(now, now);
  }

  /** What is held is in the window of request `k`, or later than it: exactly if `k` is gone. */
  lemma OldestIsLater(times: seq<nat>, window: int, k: nat, at: nat, oldest: int)
    requires Increasing(times) && k < |times| && window >= MS
    requires Live(Run(times, window), at) != map[] && IsOldest(Live(Run(times, window), at), oldest)
    ensures Ms(times[k] - window) < oldest
    ensures oldest <= Ms(times[k]) <==> times[k] in Run(times, window).members
  {
    var last, m := times[|times| - 1], Run(times, window).members;
    RunIsWindow(times, window);
    MsFacts(times[k] - window, last - window);
    MsFacts(last - window, last);
    var t :| t in m && m[t] == oldest;
    assert Ms(t) > Ms(last - window);
    assert times[k] in times;
  }

  /** They are told apart by any window of a millisecond, and whenever a second request counts. */
  lemma EndsAreApart(times: seq<nat>, window: int)
    requires times != [] && Increasing(times)
    requires window >= MS || |Run(times, window).members| > 1
    ensures Ms(times[|times| - 1] - window) < Ms(times[|times| - 1])
  {
    var now, m := times[|times| - 1], Run(times, window).members;
    assert |m| == |m.Keys|;
    MsFacts(now - window, now);
    RunIsWindow(times, window);
    if window < MS && Ms(now) <= Ms(now - window) {
      forall t | t in m
        ensures t == now
      {
        var k :| 0 <= k < |times| && times[k] == t;
        MsFacts(t, now);
      }
      SubsetSize(m.Keys, {now});
    }
  }

  lemma OldestIsInWindow(times: seq<nat>, window: int, k: nat, oldest: int)
    requires Increasing(times) && k < |times| && Ms(times[k] - window) < Ms(times[k])
    requires times[k] in Run(times, window).members && IsOldest(Run(times, window).members, oldest)
    ensures Ms(times[k] - window) < oldest <= Ms(times[k])
  {
    var last := times[|times| - 1];
    RunIsWindow(times, window);
    MsFacts(times[k] - window, last - window);
    MsFacts(times[k], last);
    var t :| t in Run(times, window).members && Run(times, window).members[t] == oldest;
  }

  lemma MsBelow(a: int, k: int)
    ensures Ms(a) < k <==> a < k * MS
  {
  }

  /** `past` is a run that led to the key's state, and goes on with `now` and `others`. */
  ghost predicate GoesOn(z: ZSet, past: seq<nat>, now: nat, others: seq<nat>, window: int) {
    z == Run(past, window) && Increasing(past + [now] + others)
  }

  /** The hint of a refused request: `others` come between its two round trips, the second of
      which is at `at`. It is in range exactly if the request is still held then; in particular
      if it is still in the window. */
  lemma RefusalHint(z: ZSet, past: seq<nat>, now: nat, others: seq<nat>, window: int, at: nat, retry: int)
    requires window >= MS && GoesOn(z, past, now, others, window)
    requires IsHint(Live(After(Pipeline(z, now, window), others, window), at), now, window, retry)
    ensures 0 < retry <= window <==> StillHeld(past + [now] + others, window, |past|, at)
    ensures (past + [now] + others)[|past| + |others|] <= at && Ms(at - window) < Ms(now) ==> 0 < retry <= window
  {
    var times := past + [now] + others;
    assert (past + [now])[..|past|] == past;
    assert Run(past + [now], window) == Pipeline(z, now, window);
    RunGoesOn(past + [now], others, window);
    assert times[|past|] == now;
    RetryInRangeIff(times, window, |past|, at, retry);
    if times[|times| - 1] <= at && Ms(at - window) < Ms(now) {
      HeldWhileInWindow(times, window, |past|, at);
    }
  }

  /** It can be out of range: if the second round trip of a request at 0 comes after a request
      at five seconds, the hint for a window of one second is six seconds. */
  lemma LateHintIsTooLong()
    ensures IsHint(Live(Run([0, 5 * SECOND], SECOND), 5 * SECOND), 0, SECOND, 6 * SECOND)
    ensures !StillHeld([0, 5 * SECOND], SECOND, 0, 5 * SECOND)
  {
    var times: seq<nat> := [0, 5 * SECOND];
    RunIsWindow(times, SECOND);
    ExpiryIsSet(times, SECOND);
    var held := Live(Run(times, SECOND), 5 * SECOND);
    assert Window(times, SECOND) == {5 * SECOND};
    assert held.Keys == {5 * SECOND} && held[5 * SECOND] == 5000;
    assert IsOldest(held, 5000) && RetryAt(5000, 0, SECOND) == 6 * SECOND;
  }

  /** Whatever run led to the key's state, the hint is in range exactly while the refused
      request is held. */
  ghost predicate InRangeWhileHeld(z: ZSet, now: nat, others: seq<nat>, window: int, at: nat, retry: int) {
    forall past :: GoesOn(z, past, now, others, window) ==>
      (0 < retry <= window <==> StillHeld(past + [now] + others, window, |past|, at))
  }

  lemma RefusalHints(z: ZSet, now: nat, others: seq<nat>, window: int, at: nat, retry: int)
    requires window >= MS
    requires IsHint(Live(After(Pipeline(z, now, window), others, window), at), now, window, retry)
    ensures InRangeWhileHeld(z, now, others, window, at, retry)
  {
    forall past | GoesOn(z, past, now, others, window)
      ensures 0 < retry <= window <==> StillHeld(past + [now] + others, window, |past|, at)
    {
      RefusalHint(z, past, now, others, window, at, retry);
    }
  }

  // ---- Count ----

  /** `Count`, which records nothing, includes requests at the very start of the window. */
  function CountOnly(z: ZSet, now: nat, window: int): nat {
    |From(Live(z, now), Ms(now - window))|
  }

  function From(m: map<nat, int>, start: int): map<nat, int> {
    map k | k in m && m[k] >= start :: m[k]
  }

  /** The requests after the start of the window of `now`. */
  function Recent(times: seq<nat>, now: nat, window: int): set<nat> {
    set t | t in times && Ms(t) > Ms(now - window)
  }

  /** The requests at its very start that are still held: the last request has pruned none of
      them unless it came within the same millisecond, and the key has not expired. */
  function Lingering(times: seq<nat>, now: nat, window: int): set<nat>
    requires times != []
  {
    var last := times[|times| - 1];
    set t | t in times && Ms(t) == Ms(now - window)
      && now < last + ExpireSeconds(window) * SECOND && (t == last || Ms(last - window) < Ms(t))
  }

  /** After any run `Count` is the number of requests in the window plus those lingering at
      its very start. */
  lemma CountIsExact(times: seq<nat>, window: int, now: nat)
    requires times != [] && Increasing(times) && times[|times| - 1] <= now
    ensures CountOnly(Run(times, window), now, window) == |Recent(times, now, window)| + |Lingering(times, now, window)|
  {
    var counted := From(Live(Run(times, window), now), Ms(now - window));
    var recent, lingering := Recent(times, now, window), Lingering(times, now, window);
    CountedKeys(times, window, now);
    assert |counted| == |counted.Keys|;
    assert recent !! lingering;
    assert |recent + lingering| == |recent| + |lingering|;
  }

  lemma CountedKeys(times: seq<nat>, window: int, now: nat)
    requires times != [] && Increasing(times) && times[|times| - 1] <= now
    ensures From(Live(Run(times, window), now), Ms(now - window)).Keys ==
      Recent(times, now, window) + Lingering(times, now, window)
  {
    var counted := From(Live(Run(times, window), now), Ms(now - window));
    HeldAreRequests(times, window, now);
    forall t | t in times
      ensures t in counted <==> t in Recent(times, now, window) || t in Lingering(times, now, window)
    {
      var k :| 0 <= k < |times| && times[k] == t;
      CountedIff(times, window, now, k);
    }
  }

  lemma HeldAreRequests(times: seq<nat>, window: int, now: nat)
    requires times != [] && Increasing(times)
    ensures forall t :: t in Live(Run(times, window), now) ==> t in times
  {
    RunIsWindow(times, window);
  }

  lemma CountedIff(times: seq<nat>, window: int, now: nat, k: nat)
    requires Increasing(times) && k < |times| && times[|times| - 1] <= now
    ensures var counted := From(Live(Run(times, window), now), Ms(now - window));
      times[k] in counted <==> times[k] in Recent(times, now, window) || times[k] in Lingering(times, now, window)
  {
    HeldIff(times, window, k, now);
    RunIsWindow(times, window);
    assert times[k] in times;
    if Ms(times[k]) > Ms(now - window) {
      HeldWhileInWindow(times, window, k, now);
    }
  }

  /** So `Count` can take in a request that `Increment` does not: one at 0 still counts after
      a second, where the next request counts itself alone. */
  lemma CountIncludesEdge()
    ensures CountOnly(Run([0], SECOND), SECOND, SECOND) == 1 && Recent([0], SECOND, SECOND) == {}
    ensures CountOf(Run([0], SECOND), SECOND, SECOND) == 1
  {
    var times: seq<nat> := [0];
    CountIsExact(times, SECOND, SECOND);
    assert Lingering(times, SECOND, SECOND) == {0};
    var both: seq<nat> := [0, SECOND];
    assert both[..1] == times;
    RunIsWindow(both, SECOND);
    assert Window(both, SECOND) == {SECOND};
  }

  function OnEdge(z: ZSet, now: nat, window: int): set<nat> {
    Edge(Live(z, now), Ms(now - window))
  }

  /** A request would be counted as one more than `Count` just said, less the requests at
      the very start of the window, which `Count` includes and `Increment` prunes. */
  lemma CountAgreesUpToEdge(z: ZSet, now: nat, window: int)
    requires now !in Live(z, now)
    ensures CountOf(z, now, window) == CountOnly(z, now, window) + 1 - |OnEdge(z, now, window)|
  {
    var live, start := Live(z, now), Ms(now - window);
    EdgeSizes(live, start, now, Ms(now));
  }

  function Edge(m: map<nat, int>, start: int): set<nat> {
    set k | k in m && m[k] == start
  }

  lemma EdgeSizes(m: map<nat, int>, start: int, now: nat, score: int)
    requires now !in m
    ensures |Prune(m, start)[now := score]| == |From(m, start)| + 1 - |Edge(m, start)|
  {
    assert From(m, start).Keys == Prune(m, start).Keys + Edge(m, start);
    assert |From(m, start).Keys| == |Prune(m, start).Keys| + |Edge(m, start)|;
  }

  // ---- Keys ----

  function Key(orgId: string, endpoint: string): string {
    "ratelimit:" + orgId + ":" + endpoint
  }

  /** Organisations whose ids hold no colon never share a key. */
  lemma KeysAreSeparate(o: string, e: string, o': string, e': string)
    requires ':' !in o && ':' !in o' && Key(o, e) == Key(o', e')
    ensures o == o' && e == e'
  {
    var p := "ratelimit:";
    assert Key(o, e) == p + (o + ":" + e) && Key(o', e') == p + (o' + ":" + e');
    var s, s' := o + ":" + e, o' + ":" + e';
    assert s == Key(o, e)[|p|..] && s' == Key(o', e')[|p|..];
    assert s[|o|] == ':' && s'[|o'|] == ':';
    assert |o| == |o'|;
    assert o == s[..|o|] && o' == s'[..|o'|];
    assert e == s[|o| + 1..] && e' == s'[|o'| + 1..];
  }

  /** With a colon they can: the key of one organisation is that of another. */
  lemma ColonsCollide()
    ensures Key("a:b", "c") == Key("a", "b:c")
  {
    assert Key("a:b", "c") == "ratelimit:a:b:c";
  }

  // ---- The cache object ----

  datatype RateLimitResult = RateLimitResult(count: nat, allowed: bool, retryAfter: int)

  /** The key is as the requests `times`, none of them after `now`, leave it. */
  ghost predicate ReachedBy(z: ZSet, times: seq<nat>, now: nat, window: int) {
    times != [] && Increasing(times) && times[|times| - 1] <= now && z == Run(times, window)
  }

  class RateLimitCache {
    var store: map<string, ZSet>

    constructor ()
      ensures store == map[]
    {
      store := map[];
    }

    function At(key: string): ZSet
      reads this
    {
      if key in store then store[key] else EMPTY
    }

    /** Touches one key only. `others` are the requests that reach the key between the two
        round trips of a refusal, and `at` is the instant of the second. */
    method Increment(orgId: string, endpoint: string, now: nat, window: int, limit: int, others: seq<nat>, at: nat)
      returns (r: RateLimitResult)
      modifies this
      ensures var key, mine := Key(orgId, endpoint), Pipeline(old(At(Key(orgId, endpoint))), now, window);
        && r.count == |mine.members| && r.allowed == (r.count <= limit)
        && store == old(store)[key := if r.allowed then mine else After(mine, others, window)]
        && (r.allowed ==> r.retryAfter == 0)
        && (!r.allowed ==> IsHint(Live(store[key], at), now, window, r.retryAfter))
      ensures !r.allowed && window >= MS ==>
        InRangeWhileHeld(old(At(Key(orgId, endpoint))), now, others, window, at, r.retryAfter)
    {
      var key := Key(orgId, endpoint);
      ghost var before, z := store, At(key);
      var held := Pipeline(At(key), now, window);
      store := store[key := held];
      var count := |held.members|;
      var retryAfter := 0;
      if count > limit {
        held := After(held, others, window);
        store := store[key := held];
        retryAfter := RetryHint(Live(held, at), now, window);
        if window >= MS {
          RefusalHints(z, now, others, window, at, retryAfter);
        }
      }
      assert store == before[key := held];
      r := RateLimitResult(count, count <= limit, retryAfter);
    }

    /** The second round trip. */
    method RetryHint(held: map<nat, int>, now: nat, window: int) returns (retryAfter: int)
      ensures IsHint(held, now, window, retryAfter)
    {
      retryAfter := 0;
      if held != map[] {
        var oldest := OldestScore(held);
        retryAfter := RetryAt(oldest, now, window);
      }
    }

    method OldestScore(m: map<nat, int>) returns (oldest: int)
      requires m != map[]
      ensures IsOldest(m, oldest)
    {
      var todo := m.Keys;
      assert todo != {};
      var first :| first in todo;
      oldest := m[first];
      while todo != {}
        invariant todo <= m.Keys
        invariant exists k :: k in m && m[k] == oldest
        invariant forall k :: k in m && k !in todo ==> oldest <= m[k]
      {
        var k :| k in todo;
        todo := todo - {k};
        if m[k] < oldest {
          oldest := m[k];
        }
      }
    }

    method Count(orgId: string, endpoint: string, now: nat, window: int) returns (count: nat)
      ensures forall times :: ReachedBy(At(Key(orgId, endpoint)), times, now, window) ==>
        count == |Recent(times, now, window)| + |Lingering(times, now, window)|
      ensures Live(At(Key(orgId, endpoint)), now) == map[] ==> count == 0
    {
      count := CountOnly(At(Key(orgId, endpoint)), now, window);
      forall times | ReachedBy(At(Key(orgId, endpoint)), times, now, window)
        ensures count == |Recent(times, now, window)| + |Lingering(times, now, window)|
      {
        CountIsExact(times, window, now);
      }
    }

    method Reset(orgId: string, endpoint: string)
      modifies this
      ensures store == old(store) - {Key(orgId, endpoint)}
    {
      store := store - {Key(orgId, endpoint)};
    }
  }
}
