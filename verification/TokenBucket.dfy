/** Token bucket rate limiter (sdk/connector/ratelimit/token_bucket.go). Time is in
    seconds; every call reads a clock that never goes back. */
module TokenBucketLimiter {
  import opened Common

  datatype Bucket = Bucket(rate: real, burst: real, tokens: real, last: real)

  /** A critical section: `Take` is `TryAcquire` or one attempt of `Acquire`, `Look` is
      `Tokens` or `WaitTime`. */
  datatype Call = Take(at: real) | Look(at: real)

  datatype ConfigError = RateNotPositive | BurstNotPositive

  predicate Sound(b: Bucket) {
    b.rate > 0.0 && b.burst > 0.0 && 0.0 <= b.tokens <= b.burst
  }

  /** The tokens that flow in during `dt`. */
  function Flow(rate: real, dt: real): real {
    rate * dt
  }

  function Refill(b: Bucket, now: real): Bucket {
    var t := b.tokens + Flow(b.rate, now - b.last);
    b.(tokens := if t > b.burst then b.burst else t, last := now)
  }

  predicate Granted(b: Bucket, c: Call) {
    c.Take? && Refill(b, c.at).tokens >= 1.0
  }

  function Step(b: Bucket, c: Call): Bucket {
    var r := Refill(b, c.at);
    if Granted(b, c) then r.(tokens := r.tokens - 1.0) else r
  }

  function Run(b: Bucket, calls: seq<Call>): Bucket {
    if calls == [] then b else Step(Run(b, calls[..|calls| - 1]), calls[|calls| - 1])
  }

  /** The clock readings of a run never go back. */
  predicate Timed(b: Bucket, calls: seq<Call>) {
    calls == []
    || (Timed(b, calls[..|calls| - 1]) && Run(b, calls[..|calls| - 1]).last <= calls[|calls| - 1].at)
  }

  /** Tokens granted to calls at or after `s`. */
  function GrantsSince(b: Bucket, calls: seq<Call>, s: real): nat {
    if calls == [] then 0
    else
      var front, c := calls[..|calls| - 1], calls[|calls| - 1];
      GrantsSince(b, front, s) + if Granted(Run(b, front), c) && c.at >= s then 1 else 0
  }

  /** Tokens granted to calls in [s, t]. */
  function GrantsIn(b: Bucket, calls: seq<Call>, s: real, t: real): nat {
    if calls == [] then 0
    else
      var front, c := calls[..|calls| - 1], calls[|calls| - 1];
      GrantsIn(b, front, s, t) + if Granted(Run(b, front), c) && s <= c.at <= t then 1 else 0
  }

  lemma FlowAdds(rate: real, x: real, y: real)
    ensures Flow(rate, x + y) == Flow(rate, x) + Flow(rate, y)
    ensures rate > 0.0 && x >= 0.0 ==> Flow(rate, x) >= 0.0
  {
  }

  lemma {:induction false} RunIsSound(b: Bucket, calls: seq<Call>)
    requires Sound(b) && Timed(b, calls)
    ensures Sound(Run(b, calls)) && Run(b, calls).rate == b.rate && Run(b, calls).burst == b.burst
    ensures calls != [] ==> Run(b, calls).last == calls[|calls| - 1].at
  {
    if calls != [] {
      var front, c := calls[..|calls| - 1], calls[|calls| - 1];
      RunIsSound(b, front);
      FlowAdds(b.rate, c.at - Run(b, front).last, 0.0);
    }
  }

  lemma FlowGrows(rate: real, x: real, y: real)
    requires rate > 0.0 && x <= y
    ensures Flow(rate, x) <= Flow(rate, y)
  {
    FlowAdds(rate, x, y - x);
    FlowAdds(rate, y - x, 0.0);
  }

  // ---- At most burst + rate * (t - s) in any window ----

  lemma {:induction false} Potential(b: Bucket, calls: seq<Call>, s: real)
    requires Sound(b) && Timed(b, calls)
    ensures var r, g := Run(b, calls), GrantsSince(b, calls, s);
      g == 0 || (r.last >= s && g as real <= b.burst + Flow(b.rate, r.last - s) - r.tokens)
  {
    if calls != [] {
      var front, c := calls[..|calls| - 1], calls[|calls| - 1];
      Potential(b, front, s);
      RunIsSound(b, front);
      var r := Run(b, front);
      FlowAdds(b.rate, r.last - s, c.at - r.last);
      FlowAdds(b.rate, c.at - s, 0.0);
    }
  }

  /** The calls up to `t` come first, and they contain every grant of the window. */
  lemma {:induction false} WindowGrants(b: Bucket, calls: seq<Call>, s: real, t: real) returns (k: nat)
    requires Sound(b) && Timed(b, calls)
    ensures Run(b, calls).last <= t ==> GrantsIn(b, calls, s, t) <= GrantsSince(b, calls, s)
    ensures k <= |calls| && GrantsIn(b, calls, s, t) <= GrantsSince(b, calls[..k], s)
    ensures Timed(b, calls[..k]) && (k > 0 ==> Run(b, calls[..k]).last <= t)
  {
    k := |calls|;
    assert calls[..k] == calls;
    if calls != [] {
      var earlier := WindowGrants(b, calls[..k - 1], s, t);
      RunIsSound(b, calls);
      if calls[k - 1].at > t {
        assert calls[..k - 1][..earlier] == calls[..earlier];
        k := earlier;
      }
    }
  }

  /** Over any run and any window [s, t], at most `burst + rate * (t - s)` tokens go out. */
  lemma GrantsAreBounded(b: Bucket, calls: seq<Call>, s: real, t: real)
    requires Sound(b) && Timed(b, calls) && s <= t
    ensures GrantsIn(b, calls, s, t) as real <= b.burst + Flow(b.rate, t - s)
  {
    var k := WindowGrants(b, calls, s, t);
    FlowGrows(b.rate, 0.0, t - s);
    NoFlow(b.rate);
    SinceIsBounded(b, calls[..k], s, t);
  }

  lemma SinceIsBounded(b: Bucket, calls: seq<Call>, s: real, t: real)
    requires Sound(b) && Timed(b, calls) && (calls != [] ==> Run(b, calls).last <= t)
    ensures var g := GrantsSince(b, calls, s); g == 0 || g as real <= b.burst + Flow(b.rate, t - s)
  {
    Potential(b, calls, s);
    RunIsSound(b, calls);
    if calls != [] {
      FlowGrows(b.rate, Run(b, calls).last - s, t - s);
    }
  }

  // ---- A refusal is always justified ----

  /** Since the last moment `s` the bucket was full, the tokens missing are the grants less
      the refill. */
  lemma {:induction false} SinceLastFull(b: Bucket, calls: seq<Call>) returns (s: real)
    requires Sound(b) && b.tokens == b.burst && Timed(b, calls)
    ensures var r := Run(b, calls);
      b.last <= s <= r.last && GrantsSince(b, calls, s) as real >= b.burst + Flow(b.rate, r.last - s) - r.tokens
  {
    if calls == [] {
      s := b.last;
    } else {
      var front, c := calls[..|calls| - 1], calls[|calls| - 1];
      s := SinceLastFull(b, front);
      RunIsSound(b, front);
      var r := Run(b, front);
      var full := Refill(r, c.at);
      if full.tokens == b.burst {
        s := c.at;
        NoFlow(b.rate);
      } else {
        RefillFlows(r, c.at, s);
        assert full.tokens == b.burst + Flow(b.rate, c.at - s) - (b.burst + Flow(b.rate, r.last - s) - r.tokens);
      }
      assert Run(b, calls) == Step(r, c);
    }
  }

  lemma NoFlow(rate: real)
    ensures Flow(rate, 0.0) == 0.0
  {
  }

  /** Below the brim, a refill adds what flowed in. */
  lemma RefillFlows(b: Bucket, t: real, s: real)
    requires Refill(b, t).tokens < b.burst
    ensures Refill(b, t).tokens == b.tokens + Flow(b.rate, t - s) - Flow(b.rate, b.last - s)
  {
    FlowAdds(b.rate, b.last - s, t - b.last);
  }

  /** When `TryAcquire` refuses, one more grant would break the bound in some window that
      ends at that instant. */
  lemma RefusalIsJustified(b: Bucket, calls: seq<Call>, t: real) returns (s: real)
    requires Sound(b) && b.tokens == b.burst && Timed(b, calls + [Take(t)])
    requires !Granted(Run(b, calls), Take(t))
    ensures s <= t && GrantsIn(b, calls, s, t) as real + 1.0 > b.burst + Flow(b.rate, t - s)
  {
    var all := calls + [Take(t)];
    assert all[..|calls|] == calls;
    s := SinceLastFull(b, all);
    RunIsSound(b, calls);
    AllWithin(b, calls, s, t);
    var r := Run(b, all);
    assert r == Refill(Run(b, calls), t) && r.tokens < 1.0;
  }

  lemma {:induction false} AllWithin(b: Bucket, calls: seq<Call>, s: real, t: real)
    requires Sound(b) && Timed(b, calls) && (calls != [] ==> calls[|calls| - 1].at <= t)
    ensures GrantsIn(b, calls, s, t) == GrantsSince(b, calls, s)
  {
    if calls != [] {
      RunIsSound(b, calls[..|calls| - 1]);
      AllWithin(b, calls[..|calls| - 1], s, t);
    }
  }

  // ---- Waiting ----

  /** A duration of `seconds`, in whole nanoseconds, as Go's conversion truncates it. */
  function Nanoseconds(seconds: real): int
    requires seconds >= 0.0
  {
    (seconds * 1000000000.0).Floor
  }

  function Need(b: Bucket, n: real): real
    requires b.rate > 0.0
  {
    (n - b.tokens) / b.rate
  }

  /** What `Acquire` sleeps after a refusal that left the bucket as `b`. */
  function AcquireWait(b: Bucket): int
    requires b.rate > 0.0 && b.tokens <= 1.0
  {
    Nanoseconds(Need(b, 1.0)) + 1000000
  }

  /** If nobody else calls, `n` tokens are there after `dt` exactly when `dt` is at least
      `Need` and the bucket can hold them at all. */
  lemma NeedIsLeast(b: Bucket, n: real, dt: real)
    requires Sound(b) && b.tokens < n && dt >= 0.0
    ensures Refill(b, b.last + dt).tokens >= n <==> dt >= Need(b, n) && n <= b.burst
  {
    FlowOfNeed(b.rate, n - b.tokens, dt);
  }

  lemma FlowOfNeed(rate: real, deficit: real, dt: real)
    requires rate > 0.0
    ensures Flow(rate, dt) >= deficit <==> dt >= deficit / rate
  {
    var q := deficit / rate;
    assert rate * q == deficit;
    FlowAdds(rate, q, dt - q);
    FlowAdds(rate, dt, q - dt);
    if dt < q {
      assert rate * (q - dt) > 0.0;
    } else {
      assert rate * (dt - q) >= 0.0;
    }
  }

  /** After sleeping its wait undisturbed, `Acquire` gets its token exactly when the bucket
      can hold one: with a burst below 1 it never does. */
  lemma SleepSufficesIff(b: Bucket, wake: real)
    requires Sound(b) && b.tokens < 1.0
    requires wake >= b.last + AcquireWait(b) as real / 1000000000.0
    ensures Granted(b, Take(wake)) <==> b.burst >= 1.0
  {
    var need := Need(b, 1.0);
    FlowOfNeed(b.rate, 1.0 - b.tokens, 0.0);
    TruncationLosesLittle(need);
    NeedIsLeast(b, 1.0, wake - b.last);
  }

  lemma TruncationLosesLittle(seconds: real)
    requires seconds >= 0.0
    ensures Nanoseconds(seconds) as real / 1000000000.0 <= seconds
    ensures (Nanoseconds(seconds) + 1000000) as real / 1000000000.0 >= seconds
    ensures Nanoseconds(seconds) as real / 1000000000.0 >= seconds <==>
      seconds * 1000000000.0 == Nanoseconds(seconds) as real
  {
  }

  /** Sleeping what `WaitTime` returned gives `n` tokens exactly when the bucket can hold
      them and no fraction of a nanosecond was truncated away. */
  lemma WaitTimeSufficesIff(b: Bucket, n: real)
    requires Sound(b) && b.tokens < n && Need(b, n) >= 0.0
    ensures Refill(b, b.last + Nanoseconds(Need(b, n)) as real / 1000000000.0).tokens >= n <==>
      n <= b.burst && Need(b, n) * 1000000000.0 == Nanoseconds(Need(b, n)) as real
  {
    TruncationLosesLittle(Need(b, n));
    NeedIsLeast(b, n, Nanoseconds(Need(b, n)) as real / 1000000000.0);
  }

  /** A third of a second is cut short: waiting what `WaitTime` returned leaves less than the
      token asked for. */
  lemma WaitCanFallShort()
    ensures var b := Run(Bucket(3.0, 1.0, 1.0, 0.0), [Take(0.0)]);
      && Sound(b) && b.tokens == 0.0 && b.burst >= 1.0
      && Nanoseconds(Need(b, 1.0)) == 333333333
      && Refill(b, b.last + 333333333.0 / 1000000000.0).tokens < 1.0
  {
    var start := Bucket(3.0, 1.0, 1.0, 0.0);
    assert [Take(0.0)][..0] == [];
    assert Run(start, [Take(0.0)]) == Step(start, Take(0.0)) == Bucket(3.0, 1.0, 0.0, 0.0);
  }

  // ---- The object ----

  /** How a sleep of `Acquire` ends: by its timer, at a clock reading, or by the context.
      `others` are the calls of other callers while it sleeps and the lock is free. */
  datatype Wake = Timer(others: seq<Call>, at: real) | Done(others: seq<Call>)

  datatype Outcome = Acquired | Cancelled | Waiting

  /** All calls from the first attempt of an `Acquire` on, until the last of `wakes`. */
  function Attempts(now: real, wakes: seq<Wake>): (calls: seq<Call>)
    ensures |calls| >= 1
  {
    if wakes == [] then [Take(now)]
    else
      var before := Attempts(now, wakes[..|wakes| - 1]);
      match wakes[|wakes| - 1]
      case Timer(others, at) => before + others + [Take(at)]
      case Done(others) => before + others
  }

  /** `calls` are the calls up to the end of the `n`th sleep, or to the attempt before it. */
  ghost predicate Made(now: real, wakes: seq<Wake>, n: nat, calls: seq<Call>) {
    n <= |wakes| && calls == Attempts(now, wakes[..n])
  }

  lemma MadeNext(now: real, wakes: seq<Wake>, n: nat, calls: seq<Call>)
    requires Made(now, wakes, n, calls) && n < |wakes|
    ensures var slept := calls + wakes[n].others;
      Made(now, wakes, n + 1, if wakes[n].Done? then slept else slept + [Take(wakes[n].at)])
  {
    assert wakes[..n + 1][..n] == wakes[..n];
  }

  lemma {:induction false} RunSplit(b: Bucket, a: seq<Call>, c: seq<Call>)
    ensures Run(b, a + c) == Run(Run(b, a), c)
  {
    if c == [] {
      assert a + c == a;
    } else {
      RunSplit(b, a, c[..|c| - 1]);
      assert (a + c)[..|a + c| - 1] == a + c[..|c| - 1];
    }
  }

  ghost predicate LastIsGranted(b: Bucket, calls: seq<Call>) {
    calls != [] && Granted(Run(b, calls[..|calls| - 1]), calls[|calls| - 1])
  }

  lemma OneMore(b: Bucket, calls: seq<Call>, c: Call)
    ensures Run(b, calls + [c]) == Step(Run(b, calls), c)
    ensures LastIsGranted(b, calls + [c]) <==> Granted(Run(b, calls), c)
  {
    assert (calls + [c])[..|calls|] == calls;
  }

  class TokenBucket {
    const rate: real
    const burst: real
    var tokens: real
    var lastRefill: real

    constructor (rate: real, burst: real, now: real)
      requires rate > 0.0 && burst > 0.0
      ensures View() == Bucket(rate, burst, burst, now)
    {
      this.rate, this.burst, tokens, lastRefill := rate, burst, burst, now;
    }

    /** The bucket starts full; a rate or burst that is not positive is an error. */
    static method New(rate: real, burst: real, now: real) returns (r: Result<TokenBucket, ConfigError>)
      ensures r.Ok? <==> rate > 0.0 && burst > 0.0
      ensures r.Ok? ==> fresh(r.value) && r.value.View() == Bucket(rate, burst, burst, now) && Sound(r.value.View())
      ensures r.Err? ==> r.error == if rate <= 0.0 then RateNotPositive else BurstNotPositive
    {
      if rate <= 0.0 {
        return Err(RateNotPositive);
      }
      if burst <= 0.0 {
        return Err(BurstNotPositive);
      }
      var tb := new TokenBucket(rate, burst, now);
      r := Ok(tb);
    }

    ghost function View(): Bucket
      reads this
    {
      Bucket(rate, burst, tokens, lastRefill)
    }

    method RefillNow(now: real)
      modifies this
      ensures View() == Refill(old(View()), now)
    {
      var elapsed := now - lastRefill;
      tokens := tokens + elapsed * rate;
      if tokens > burst {
        tokens := burst;
      }
      lastRefill := now;
    }

    method TryAcquire(now: real) returns (granted: bool)
      modifies this
      ensures View() == Step(old(View()), Take(now)) && granted == Granted(old(View()), Take(now))
    {
      RefillNow(now);
      granted := tokens >= 1.0;
      if granted {
        tokens := tokens - 1.0;
      }
    }

    method Tokens(now: real) returns (available: real)
      modifies this
      ensures View() == Step(old(View()), Look(now)) && available == View().tokens
    {
      RefillNow(now);
      available := tokens;
    }

    method WaitTime(n: real, now: real) returns (nanoseconds: int)
      requires Sound(View()) && lastRefill <= now
      modifies this
      ensures View() == Step(old(View()), Look(now))
      ensures tokens >= n ==> nanoseconds == 0
      ensures tokens < n ==> Need(View(), n) >= 0.0 && nanoseconds == Nanoseconds(Need(View(), n))
    {
      RefillNow(now);
      if tokens >= n {
        return 0;
      }
      var deficit := n - tokens;
      FlowOfNeed(rate, deficit, 0.0);
      nanoseconds := Nanoseconds(deficit / rate);
    }

    /** Other callers, one critical section after the other. */
    method Interleave(calls: seq<Call>)
      modifies this
      ensures View() == Run(old(View()), calls)
    {
      for k := 0 to |calls|
        invariant View() == Run(old(View()), calls[..k])
      {
        OneMore(old(View()), calls[..k], calls[k]);
        assert calls[..k + 1] == calls[..k] + [calls[k]];
        match calls[k] {
          case Take(at) => var _ := TryAcquire(at);
          case Look(at) => var _ := Tokens(at);
        }
      }
      assert calls[..|calls|] == calls;
    }

    method WaitForOne() returns (wait: int)
      requires rate > 0.0 && tokens < 1.0
      ensures wait == AcquireWait(View())
    {
      FlowOfNeed(rate, 1.0 - tokens, 0.0);
      wait := Nanoseconds((1.0 - tokens) / rate) + 1000000;
    }

    /** One attempt in a run of calls. */
    method Attempt(time: real, ghost start: Bucket, ghost calls: seq<Call>) returns (granted: bool)
      requires View() == Run(start, calls)
      modifies this
      ensures View() == Run(start, calls + [Take(time)]) && (granted <==> LastIsGranted(start, calls + [Take(time)]))
      ensures !granted ==> tokens < 1.0
    {
      OneMore(start, calls, Take(time));
      granted := TryAcquire(time);
    }

    /** A sleep in a run of calls, in which `others` are made. */
    method Sleep(others: seq<Call>, ghost start: Bucket, ghost calls: seq<Call>)
      requires View() == Run(start, calls)
      modifies this
      ensures View() == Run(start, calls + others)
    {
      RunSplit(start, calls, others);
      Interleave(others);
    }

    /** Attempts and sleeps until one ends the call, or the caller still waits when `wakes` run out. */
    method AttemptAll(now: real, wakes: seq<Wake>) returns (outcome: Outcome, n: nat)
      modifies this
      ensures n <= |wakes| && View() == Run(old(View()), Attempts(now, wakes[..n]))
      ensures outcome.Acquired? ==> LastIsGranted(old(View()), Attempts(now, wakes[..n]))
      ensures outcome.Cancelled? <==> n > 0 && wakes[n - 1].Done?
      ensures outcome.Waiting? ==> n == |wakes| && tokens < 1.0
    {
      n := 0;
      ghost var start, calls := View(), [];
      var time := now;
      while true
        invariant View() == Run(start, calls) && Made(now, wakes, n, calls + [Take(time)])
        invariant n > 0 ==> wakes[n - 1].Timer?
        decreases |wakes| - n
      {
        var granted := Attempt(time, start, calls);
        calls := calls + [Take(time)];
        if granted {
          return Acquired, n;
        }
        if n == |wakes| {
          return Waiting, n;
        }
        var wake := wakes[n];
        MadeNext(now, wakes, n, calls);
        Sleep(wake.others, start, calls);
        calls, n := calls + wake.others, n + 1;
        if wake.Done? {
          return Cancelled, n;
        }
        time := wake.at;
      }
    }

    /** A caller that still waits sleeps `wait` nanoseconds after its last attempt. */
    method Acquire(now: real, wakes: seq<Wake>) returns (outcome: Outcome, wait: int, n: nat)
      requires rate > 0.0
      modifies this
      ensures n <= |wakes| && View() == Run(old(View()), Attempts(now, wakes[..n]))
      ensures outcome.Acquired? ==> LastIsGranted(old(View()), Attempts(now, wakes[..n]))
      ensures outcome.Cancelled? <==> n > 0 && wakes[n - 1].Done?
      ensures outcome.Waiting? ==> n == |wakes| && tokens < 1.0 && wait == AcquireWait(View())
    {
      outcome, n := AttemptAll(now, wakes);
      wait := 0;
      if outcome.Waiting? {
        wait := WaitForOne();
      }
    }
  }
}
