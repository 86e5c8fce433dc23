/** The two rate gates: the in-memory limiter of internal/auth/callback.go and the request gate of
    internal/adapters/arxiv/search.go. Time is an integer; the lock of each gate makes a call one step. */
module RateGates {
  import opened Prelude
  import opened Spacing

  // ---------- the in-memory limiter ----------

  datatype Bucket = Bucket(count: int, resetAt: int)

  datatype Request = Request(key: string, now: int)

  /** No bucket is in force for the key. */
  predicate Opens(buckets: map<string, Bucket>, r: Request) {
    r.key !in buckets || r.now > buckets[r.key].resetAt
  }

  /** The bucket a request leaves behind. */
  function Charged(window: int, buckets: map<string, Bucket>, r: Request): Bucket {
    if Opens(buckets, r) then Bucket(1, r.now + window)
    else Bucket(buckets[r.key].count + 1, buckets[r.key].resetAt)
  }

  /** The first request of a bucket passes whatever the limit is. */
  predicate Passes(limit: int, buckets: map<string, Bucket>, r: Request) {
    Opens(buckets, r) || buckets[r.key].count < limit
  }

  class RateLimiter {
    const limit: int
    const window: int
    var buckets: map<string, Bucket>

    constructor (limit: int, window: int)
      ensures this.limit == limit && this.window == window && buckets == map[]
    {
      this.limit, this.window, buckets := limit, window, map[];
    }

    /** allowInMemory */
    method Allow(key: string, now: int) returns (allowed: bool)
      modifies this
      ensures buckets == old(buckets)[key := Charged(window, old(buckets), Request(key, now))]
      ensures allowed <==> Passes(limit, old(buckets), Request(key, now))
    {
      if key !in buckets || now > buckets[key].resetAt {
        buckets := buckets[key := Bucket(1, now + window)];
        return true;
      }
      var b := buckets[key];
      buckets := buckets[key := b.(count := b.count + 1)];
      return buckets[key].count <= limit;
    }

    /** A run of requests against this limiter lets through exactly the requests `Admitted` names. */
    method Serve(requests: seq<Request>, key: string) returns (times: seq<int>)
      requires buckets == map[]
      modifies this
      ensures buckets == BucketsAfter(limit, window, requests)
      ensures times == Admitted(limit, window, requests, key)
    {
      times := [];
      for i := 0 to |requests|
        invariant buckets == BucketsAfter(limit, window, requests[..i])
        invariant times == Admitted(limit, window, requests[..i], key)
      {
        assert requests[..i + 1][..i] == requests[..i];
        var allowed := Allow(requests[i].key, requests[i].now);
        if allowed && requests[i].key == key {
          times := times + [requests[i].now];
        }
      }
      assert requests[..|requests|] == requests;
    }
  }

  function BucketsAfter(limit: int, window: int, requests: seq<Request>): map<string, Bucket> {
    if requests == [] then map[]
    else
      var r := requests[|requests| - 1];
      var before := BucketsAfter(limit, window, requests[..|requests| - 1]);
      before[r.key := Charged(window, before, r)]
  }

  /** When requests for `key` were let through. */
  function Admitted(limit: int, window: int, requests: seq<Request>, key: string): seq<int> {
    if requests == [] then []
    else
      var r := requests[|requests| - 1];
      var before := BucketsAfter(limit, window, requests[..|requests| - 1]);
      Admitted(limit, window, requests[..|requests| - 1], key)
        + if r.key == key && Passes(limit, before, r) then [r.now] else []
  }

  predicate ClockIsMonotone(requests: seq<Request>) {
    forall i, j :: 0 <= i < j < |requests| ==> requests[i].now <= requests[j].now
  }

  /** What one bucket lets through at most. */
  function Allowance(limit: int): int {
    Max(1, limit)
  }

  /** The admissions for one key: those of earlier buckets, and those of the bucket in force. */
  datatype Trace = Trace(older: seq<int>, current: seq<int>)

  ghost function TraceOf(limit: int, window: int, requests: seq<Request>, key: string): Trace {
    if requests == [] then Trace([], [])
    else
      var r := requests[|requests| - 1];
      var before := BucketsAfter(limit, window, requests[..|requests| - 1]);
      var t := TraceOf(limit, window, requests[..|requests| - 1], key);
      if r.key != key then t
      else if Opens(before, r) then Trace(t.older + t.current, [r.now])
      else if Passes(limit, before, r) then Trace(t.older, t.current + [r.now])
      else t
  }

  ghost predicate TraceHolds(limit: int, window: int, t: Trace, buckets: map<string, Bucket>, key: string, now: int) {
    && (key !in buckets <==> t.current == [])
    && (t.current == [] ==> t.older == [])
    && (t.current != [] ==>
          && buckets[key].count >= 1
          && |t.current| == Min(buckets[key].count, Allowance(limit))
          && buckets[key].resetAt == t.current[0] + window
          && InOrder(t, window, now)
          && SpansBefore(t.older, t.current[0] - window, window, Allowance(limit) - 1))
    && EverySpan(t.older, window, 2 * Allowance(limit) - 1)
    && (window == 0 ==> EverySpan(t.older, 0, Allowance(limit)))
  }

  /** Where in time the admissions lie: older ones up to the opening of the bucket in force, its own ones in between
      that and now; with a window that is not negative the buckets do not even touch. */
  predicate InOrder(t: Trace, window: int, now: int)
    requires t.current != []
  {
    && AllUpTo(t.older, t.current[0]) && AllUpTo(t.current, now)
    && (forall i :: 0 <= i < |t.current| ==> t.current[0] <= t.current[i])
    && (window >= 0 ==> AllUpTo(t.older, t.current[0] - 1) && AllUpTo(t.current, t.current[0] + window))
  }

  predicate AllUpTo(times: seq<int>, now: int) {
    forall i :: 0 <= i < |times| ==> times[i] <= now
  }

  /** Every span of the given length that starts at `from` or later holds at most `bound` of them. */
  ghost predicate SpansBefore(times: seq<int>, from: int, span: int, bound: int) {
    forall start :: start >= from ==> |Within(times, start, span)| <= bound
  }

  ghost predicate EverySpan(times: seq<int>, span: int, bound: int) {
    forall start :: |Within(times, start, span)| <= bound
  }

  lemma {:induction false} WithinConcat(a: seq<int>, b: seq<int>, start: int, span: int)
    ensures Within(a + b, start, span) == Within(a, start, span) + Within(b, start, span)
  {
    if b == [] {
      assert a + b == a;
    } else {
      var n := |b| - 1;
      assert (a + b)[..|a + b| - 1] == a + b[..n];
      WithinConcat(a, b[..n], start, span);
    }
  }

  lemma {:induction false} WithinBounds(times: seq<int>, start: int, span: int)
    ensures |Within(times, start, span)| <= |times|
    ensures times != [] && times[0] < start ==> |Within(times, start, span)| <= |times| - 1
    ensures AllUpTo(times, start - 1) ==> Within(times, start, span) == []
    ensures (forall i :: 0 <= i < |times| ==> times[i] > start + span) ==> Within(times, start, span) == []
    ensures (forall i :: 0 <= i < |times| ==> start <= times[i] <= start + span) ==> Within(times, start, span) == times
  {
    if times != [] {
      WithinBounds(times[..|times| - 1], start, span);
    }
  }

  /** A bucket opened at `now`, after the one before ran out: earlier admissions that share a span with it miss that
      bucket's first. */
  lemma JoinSpans(older: seq<int>, current: seq<int>, window: int, m: int)
    requires m >= 1 && current != [] && |current| <= m
    requires AllUpTo(older, current[0]) && SpansBefore(older, current[0] - window, window, m - 1)
    requires forall i :: 0 <= i < |current| ==> current[0] <= current[i]
    requires EverySpan(older, window, 2 * m - 1)
    ensures EverySpan(older + current, window, 2 * m - 1)
    ensures SpansBefore(older + current, current[0] + 1, window, m - 1)
  {
    var c := current[0];
    forall start
      ensures |Within(older + current, start, window)| <= 2 * m - 1
      ensures start > c ==> |Within(older + current, start, window)| <= m - 1
    {
      WithinConcat(older, current, start, window);
      WithinBounds(current, start, window);
      WithinBounds(older, start, window);
      if start + window < c {
        assert Within(current, start, window) == [];
      } else if start <= c {
        assert |Within(older, start, window)| <= m - 1;
      } else {
        assert Within(older, start, window) == [];
      }
    }
  }

  lemma JoinInstants(older: seq<int>, current: seq<int>, m: int)
    requires current != [] && |current| <= m
    requires AllUpTo(older, current[0] - 1) && AllUpTo(current, current[0])
    requires forall i :: 0 <= i < |current| ==> current[0] <= current[i]
    requires EverySpan(older, 0, m)
    ensures EverySpan(older + current, 0, m)
  {
    forall start
      ensures |Within(older + current, start, 0)| <= m
    {
      WithinConcat(older, current, start, 0);
      WithinBounds(current, start, 0);
      WithinBounds(older, start, 0);
      assert start < current[0] ==> Within(current, start, 0) == [];
    }
  }

  lemma OpenBucket(limit: int, window: int, t: Trace, buckets: map<string, Bucket>, r: Request, latest: int)
    requires TraceHolds(limit, window, t, buckets, r.key, latest) && latest <= r.now && Opens(buckets, r)
    ensures
      TraceHolds(limit, window, Trace(t.older + t.current, [r.now]), buckets[r.key := Charged(window, buckets, r)], r.key,
        r.now)
  {
    if t.current == [] {
      assert t.older + t.current == [];
    } else {
      JoinSpans(t.older, t.current, window, Allowance(limit));
      if window == 0 {
        JoinInstants(t.older, t.current, Allowance(limit));
      }
    }
  }

  lemma FillBucket(limit: int, window: int, t: Trace, buckets: map<string, Bucket>, r: Request, latest: int)
    requires TraceHolds(limit, window, t, buckets, r.key, latest) && latest <= r.now && !Opens(buckets, r)
    ensures
      var t' := if Passes(limit, buckets, r) then Trace(t.older, t.current + [r.now]) else t;
      TraceHolds(limit, window, t', buckets[r.key := Charged(window, buckets, r)], r.key, r.now)
  {
    hide EverySpan, SpansBefore;
  }

  lemma {:induction false} TraceInEveryRun(limit: int, window: int, requests: seq<Request>, key: string, now: int)
    requires ClockIsMonotone(requests) && (requests != [] ==> requests[|requests| - 1].now <= now)
    ensures
      TraceHolds(limit, window, TraceOf(limit, window, requests, key), BucketsAfter(limit, window, requests), key, now)
    ensures
      var t := TraceOf(limit, window, requests, key);
      Admitted(limit, window, requests, key) == t.older + t.current
  {
    if requests != [] {
      var n := |requests| - 1;
      var r := requests[n];
      TraceInEveryRun(limit, window, requests[..n], key, r.now);
      var t, before := TraceOf(limit, window, requests[..n], key), BucketsAfter(limit, window, requests[..n]);
      if r.key == key {
        if Opens(before, r) {
          OpenBucket(limit, window, t, before, r, r.now);
        } else {
          FillBucket(limit, window, t, before, r, r.now);
        }
      } else {
        OtherBucket(limit, window, t, before, key, r);
      }
      hide TraceHolds;
      LaterTrace(limit, window, TraceOf(limit, window, requests, key), BucketsAfter(limit, window, requests), key, r.now,
        now);
    }
  }

  lemma OtherBucket(limit: int, window: int, t: Trace, buckets: map<string, Bucket>, key: string, r: Request)
    requires TraceHolds(limit, window, t, buckets, key, r.now) && r.key != key
    ensures TraceHolds(limit, window, t, buckets[r.key := Charged(window, buckets, r)], key, r.now)
  {
    hide EverySpan, SpansBefore, InOrder;
  }

  lemma LaterTrace(
    limit: int, window: int, t: Trace, buckets: map<string, Bucket>, key: string, now: int, later: int)
    requires TraceHolds(limit, window, t, buckets, key, now) && now <= later
    ensures TraceHolds(limit, window, t, buckets, key, later)
  {
    hide EverySpan, SpansBefore;
  }

  /** In any run under a monotone clock, any span of one window length lets at most 2 * max(1, limit) - 1 requests of
      one key through, and at most max(1, limit) where the window is not positive. */
  lemma RateBound(limit: int, window: int, requests: seq<Request>, key: string)
    requires ClockIsMonotone(requests)
    ensures EverySpan(Admitted(limit, window, requests, key), window, 2 * Allowance(limit) - 1)
    ensures window == 0 ==> EverySpan(Admitted(limit, window, requests, key), window, Allowance(limit))
    ensures window < 0 ==> EverySpan(Admitted(limit, window, requests, key), window, 0)
  {
    var t := TraceOf(limit, window, requests, key);
    TraceInEveryRun(limit, window, requests, key, if requests == [] then 0 else requests[|requests| - 1].now);
    if t.current == [] {
      assert t.older + t.current == [];
    } else {
      JoinSpans(t.older, t.current, window, Allowance(limit));
      if window == 0 {
        JoinInstants(t.older, t.current, Allowance(limit));
      }
    }
    if window < 0 {
      forall start
        ensures |Within(Admitted(limit, window, requests, key), start, window)| <= 0
      {
        EmptySpan(Admitted(limit, window, requests, key), start, window);
      }
    }
  }

  lemma {:induction false} EmptySpan(times: seq<int>, start: int, span: int)
    requires span < 0
    ensures Within(times, start, span) == []
  {
    if times != [] {
      EmptySpan(times[..|times| - 1], start, span);
    }
  }

  // ---------- the bound is exact; the promised sliding window is not kept ----------

  function Burst(key: string, now: int, n: nat): (r: seq<Request>)
    ensures |r| == n
  {
    seq(n, i => Request(key, now))
  }

  lemma {:induction false} BurstPasses(limit: int, window: int, run: seq<Request>, key: string, now: int, n: nat)
    requires
      var buckets := BucketsAfter(limit, window, run);
      key in buckets && now <= buckets[key].resetAt && buckets[key].count + n <= limit
    ensures
      var b, b' := BucketsAfter(limit, window, run), BucketsAfter(limit, window, run + Burst(key, now, n));
      key in b' && b'[key] == Bucket(b[key].count + n, b[key].resetAt)
    ensures
      Admitted(limit, window, run + Burst(key, now, n), key)
        == Admitted(limit, window, run, key) + seq(n, i => now)
  {
    hide BucketsAfter, Admitted;
    if n == 0 {
      assert run + Burst(key, now, n) == run;
    } else {
      BurstPasses(limit, window, run, key, now, n - 1);
      var before := run + Burst(key, now, n - 1);
      FillingPasses(limit, window, before, Request(key, now));
      assert run + Burst(key, now, n) == before + [Request(key, now)];
      assert seq(n, i => now) == seq(n - 1, i => now) + [now];
    }
  }

  lemma FillingPasses(limit: int, window: int, run: seq<Request>, r: Request)
    requires
      var buckets := BucketsAfter(limit, window, run);
      r.key in buckets && r.now <= buckets[r.key].resetAt && buckets[r.key].count < limit
    ensures
      var b := BucketsAfter(limit, window, run)[r.key];
      BucketsAfter(limit, window, run + [r]) == BucketsAfter(limit, window, run)[r.key := b.(count := b.count + 1)]
    ensures Admitted(limit, window, run + [r], r.key) == Admitted(limit, window, run, r.key) + [r.now]
  {
    assert (run + [r])[..|run|] == run;
  }

  /** One request, the rest of the limit as the window ends, and a full bucket one instant later. */
  function Straddle(limit: int, window: int, key: string): seq<Request>
    requires limit >= 1 && window >= 1
  {
    [Request(key, 0)] + Burst(key, window, limit - 1) + [Request(key, window + 1)] + Burst(key, window + 1, limit - 1)
  }

  lemma OpeningPasses(limit: int, window: int, run: seq<Request>, r: Request)
    requires Opens(BucketsAfter(limit, window, run), r)
    ensures BucketsAfter(limit, window, run + [r]) == BucketsAfter(limit, window, run)[r.key := Bucket(1, r.now + window)]
    ensures Admitted(limit, window, run + [r], r.key) == Admitted(limit, window, run, r.key) + [r.now]
  {
    assert (run + [r])[..|run|] == run;
  }

  lemma StraddleAdmitted(limit: int, window: int, key: string)
    requires limit >= 1 && window >= 1
    ensures
      Admitted(limit, window, Straddle(limit, window, key), key)
        == [0] + seq(limit - 1, i => window) + [window + 1] + seq(limit - 1, i => window + 1)
  {
    hide BucketsAfter, Admitted, Opens, Passes, Charged;
    var one := [Request(key, 0)];
    var two := one + Burst(key, window, limit - 1);
    var three := two + [Request(key, window + 1)];
    assert [] + one == one;
    EmptyRun(limit, window, key);
    OpeningPasses(limit, window, [], Request(key, 0));
    BurstPasses(limit, window, one, key, window, limit - 1);
    StaleOpens(BucketsAfter(limit, window, two), Request(key, window + 1));
    OpeningPasses(limit, window, two, Request(key, window + 1));
    BurstPasses(limit, window, three, key, window + 1, limit - 1);
    assert [] + [0] == [0];
  }

  lemma EmptyRun(limit: int, window: int, key: string)
    ensures Admitted(limit, window, [], key) == []
    ensures Opens(BucketsAfter(limit, window, []), Request(key, 0))
  {
  }

  lemma StaleOpens(buckets: map<string, Bucket>, r: Request)
    requires r.key in buckets && r.now > buckets[r.key].resetAt
    ensures Opens(buckets, r)
  {
  }

  /** The bound of RateBound is reached: one window length sees twice the limit, less one. */
  lemma RateBoundIsReached(limit: int, window: int, key: string)
    requires limit >= 1 && window >= 1
    ensures ClockIsMonotone(Straddle(limit, window, key))
    ensures
      |Within(Admitted(limit, window, Straddle(limit, window, key), key), window, window)| == 2 * limit - 1
  {
    StraddleIsMonotone(limit, window, key);
    StraddleAdmitted(limit, window, key);
    StraddleCount(window, seq(limit - 1, i => window), seq(limit - 1, i => window + 1));
    hide *;
  }

  lemma StraddleCount(window: int, rest: seq<int>, full: seq<int>)
    requires window >= 1
    requires forall i :: 0 <= i < |rest| ==> rest[i] == window
    requires forall i :: 0 <= i < |full| ==> full[i] == window + 1
    ensures |Within([0] + rest + [window + 1] + full, window, window)| == |rest| + 1 + |full|
  {
    InSpan(rest, window, window);
    InSpan([window + 1], window, window);
    InSpan(full, window, window);
    BeforeSpan([0], window, window);
    WithinConcat([0] + rest + [window + 1], full, window, window);
    WithinConcat([0] + rest, [window + 1], window, window);
    WithinConcat([0], rest, window, window);
    hide *;
  }

  lemma StraddleIsMonotone(limit: int, window: int, key: string)
    requires limit >= 1 && window >= 1
    ensures ClockIsMonotone(Straddle(limit, window, key))
  {
  }

  lemma InSpan(times: seq<int>, start: int, span: int)
    requires forall i :: 0 <= i < |times| ==> start <= times[i] <= start + span
    ensures Within(times, start, span) == times
  {
    WithinBounds(times, start, span);
  }

  lemma BeforeSpan(times: seq<int>, start: int, span: int)
    requires forall i :: 0 <= i < |times| ==> times[i] < start
    ensures Within(times, start, span) == []
  {
    WithinBounds(times, start, span);
  }

  /** The promise of a sliding window: no span of one window length ever sees more than `limit` requests of a key. */
  ghost predicate KeepsSlidingWindow(limit: int, window: int) {
    forall requests, key {:trigger Admitted(limit, window, requests, key)} ::
      ClockIsMonotone(requests) ==> EverySpan(Admitted(limit, window, requests, key), window, limit)
  }

  /** The limiter counts per fixed window, so it keeps that promise only in these cases. */
  lemma SlidingWindowIff(limit: int, window: int)
    ensures KeepsSlidingWindow(limit, window)
       <==> if window < 0 then limit >= 0 else if window == 0 then limit >= 1 else limit == 1
  {
    forall requests, key | ClockIsMonotone(requests)
      ensures EverySpan(Admitted(limit, window, requests, key), window, 2 * Allowance(limit) - 1)
      ensures window == 0 ==> EverySpan(Admitted(limit, window, requests, key), window, Allowance(limit))
      ensures window < 0 ==> EverySpan(Admitted(limit, window, requests, key), window, 0)
    {
      RateBound(limit, window, requests, key);
    }
    if limit < 0 || (limit == 0 && window >= 0) {
      FirstAlwaysPasses(limit, window);
    } else if limit >= 2 && window >= 1 {
      RateBoundIsReached(limit, window, "");
      assert !EverySpan(Admitted(limit, window, Straddle(limit, window, ""), ""), window, limit);
    }
  }

  lemma FirstAlwaysPasses(limit: int, window: int)
    requires limit < 0 || (limit == 0 && window >= 0)
    ensures !KeepsSlidingWindow(limit, window)
  {
    var run := [Request("", 0)];
    assert [] + run == run;
    OpeningPasses(limit, window, [], run[0]);
    assert Admitted(limit, window, run, "") == [0];
    assert window >= 0 ==> Within([0], 0, window) == [0];
    assert !EverySpan(Admitted(limit, window, run, ""), window, limit);
  }

  // ---------- the request gate ----------

  /** The slot a caller gets: now, or when the last slot's interval is over. */
  function Slot(nextRequest: int, now: int): int {
    Max(now, nextRequest)
  }

  datatype Call = Call(now: int, cancelled: bool)

  class Gate {
    const minInterval: int
    var nextRequest: int

    /** `zero` is the clock's zero instant, the value of an unset time. */
    constructor (minInterval: int, zero: int)
      ensures this.minInterval == minInterval && nextRequest == zero
    {
      this.minInterval, nextRequest := minInterval, zero;
    }

    /** waitForRateSlot: the slot is taken before the wait, so a caller that gives up while waiting still consumes it.
        A caller that need not wait is not asked whether its context is done. */
    method WaitForRateSlot(call: Call) returns (granted: Option<int>)
      modifies this
      ensures minInterval <= 0 ==> nextRequest == old(nextRequest) && granted == Some(call.now)
      ensures minInterval > 0 ==>
          nextRequest == Slot(old(nextRequest), call.now) + minInterval
          && granted == (if call.cancelled && old(nextRequest) > call.now then None
                         else Some(Slot(old(nextRequest), call.now)))
    {
      if minInterval <= 0 {
        return Some(call.now);
      }
      var wait := nextRequest - call.now;
      if wait < 0 {
        wait := 0;
      }
      nextRequest := call.now + wait + minInterval;
      if wait <= 0 {
        return Some(call.now);
      }
      return if call.cancelled then None else Some(call.now + wait);
    }

    /** Serialised callers: the slots granted are those `Granted` names; without an interval nobody waits. */
    method ServeAll(calls: seq<Call>) returns (times: seq<int>)
      modifies this
      ensures minInterval > 0 ==>
          times == Granted(old(nextRequest), minInterval, calls)
          && nextRequest == NextAfter(old(nextRequest), minInterval, calls)
      ensures minInterval <= 0 ==> times == Instants(calls) && nextRequest == old(nextRequest)
    {
      times := [];
      ghost var zero := nextRequest;
      for i := 0 to |calls|
        invariant minInterval > 0 ==>
            nextRequest == NextAfter(zero, minInterval, calls[..i]) && times == Granted(zero, minInterval, calls[..i])
        invariant minInterval <= 0 ==> times == Instants(calls[..i]) && nextRequest == zero
      {
        assert calls[..i + 1][..i] == calls[..i];
        var granted := WaitForRateSlot(calls[i]);
        if granted.Some? {
          times := times + [granted.value];
        }
      }
      assert calls[..|calls|] == calls;
    }
  }

  function Instants(calls: seq<Call>): (r: seq<int>)
    ensures |r| == |calls|
  {
    seq(|calls|, i requires 0 <= i < |calls| => calls[i].now)
  }

  function NextAfter(zero: int, gap: int, calls: seq<Call>): int {
    if calls == [] then zero
    else Slot(NextAfter(zero, gap, calls[..|calls| - 1]), calls[|calls| - 1].now) + gap
  }

  /** The slots callers consume, granted or not. */
  function Slots(zero: int, gap: int, calls: seq<Call>): seq<int> {
    if calls == [] then []
    else
      Slots(zero, gap, calls[..|calls| - 1])
        + [Slot(NextAfter(zero, gap, calls[..|calls| - 1]), calls[|calls| - 1].now)]
  }

  /** The slots granted: callers that give up while waiting get none. */
  function Granted(zero: int, gap: int, calls: seq<Call>): seq<int> {
    if calls == [] then []
    else
      var call := calls[|calls| - 1];
      var next := NextAfter(zero, gap, calls[..|calls| - 1]);
      Granted(zero, gap, calls[..|calls| - 1])
        + if call.cancelled && next > call.now then [] else [Slot(next, call.now)]
  }

  lemma SlotIsLate(nextRequest: int, now: int)
    ensures Slot(nextRequest, now) >= nextRequest && Slot(nextRequest, now) >= now
  {
  }

  lemma {:induction false} GrantedSpaced(zero: int, gap: int, calls: seq<Call>)
    requires gap > 0
    ensures Spaced(Granted(zero, gap, calls), gap)
    ensures forall t :: t in Granted(zero, gap, calls) ==> t <= NextAfter(zero, gap, calls) - gap
  {
    if calls != [] {
      var before := Granted(zero, gap, calls[..|calls| - 1]);
      GrantedSpaced(zero, gap, calls[..|calls| - 1]);
      hide Slot;
      assert Slot(NextAfter(zero, gap, calls[..|calls| - 1]), calls[|calls| - 1].now)
          >= NextAfter(zero, gap, calls[..|calls| - 1]) by {
        SlotIsLate(NextAfter(zero, gap, calls[..|calls| - 1]), calls[|calls| - 1].now);
      }
      assert forall i :: 0 <= i < |before| ==> before[i] in before;
    }
  }

  /** Granted slots are at least the interval apart, whatever the clock does, so a span of length T holds at most
      T / minInterval + 1 of them. */
  lemma GateRate(zero: int, gap: int, calls: seq<Call>, start: int, span: int)
    requires gap > 0 && span >= 0
    ensures Spaced(Granted(zero, gap, calls), gap)
    ensures |Within(Granted(zero, gap, calls), start, span)| <= span / gap + 1
  {
    GrantedSpaced(zero, gap, calls);
    SpacedCount(Granted(zero, gap, calls), gap, start, span);
  }

  /** A schedule that serves the callers in turn, none before it asks, and keeps the interval. */
  predicate IsSchedule(zero: int, gap: int, calls: seq<Call>, times: seq<int>) {
    && |times| == |calls| && Spaced(times, gap)
    && forall i :: 0 <= i < |calls| ==> times[i] >= calls[i].now && times[i] >= zero
  }

  lemma {:induction false} NextIsLate(zero: int, gap: int, calls: seq<Call>)
    requires gap > 0
    ensures NextAfter(zero, gap, calls) >= zero
  {
    if calls != [] {
      NextIsLate(zero, gap, calls[..|calls| - 1]);
    }
  }

  lemma ScheduleGrows(zero: int, gap: int, calls: seq<Call>, times: seq<int>, call: Call, t: int)
    requires IsSchedule(zero, gap, calls, times) && gap > 0 && t >= call.now && t >= zero
    requires times != [] ==> t - times[|times| - 1] >= gap
    ensures IsSchedule(zero, gap, calls + [call], times + [t])
  {
    var n := |times|;
    assert forall i :: 0 <= i < n - 1 ==> times[n - 1] - times[i] >= gap;
  }

  lemma {:induction false} SlotsKeepInterval(zero: int, gap: int, calls: seq<Call>)
    requires gap > 0
    ensures IsSchedule(zero, gap, calls, Slots(zero, gap, calls))
    ensures NextAfter(zero, gap, calls) == (if calls == [] then zero else Slots(zero, gap, calls)[|calls| - 1] + gap)
  {
    if calls != [] {
      var n := |calls| - 1;
      SlotsKeepInterval(zero, gap, calls[..n]);
      NextIsLate(zero, gap, calls[..n]);
      ScheduleGrows(zero, gap, calls[..n], Slots(zero, gap, calls[..n]), calls[n],
        Slot(NextAfter(zero, gap, calls[..n]), calls[n].now));
      assert calls == calls[..n] + [calls[n]];
    }
  }

  /** The gate never makes anyone wait longer than the interval demands: its slots form the least such schedule. */
  lemma {:induction false} SlotsAreLeast(zero: int, gap: int, calls: seq<Call>, times: seq<int>)
    requires gap > 0 && IsSchedule(zero, gap, calls, times)
    ensures IsSchedule(zero, gap, calls, Slots(zero, gap, calls))
    ensures forall i :: 0 <= i < |calls| ==> Slots(zero, gap, calls)[i] <= times[i]
  {
    SlotsKeepInterval(zero, gap, calls);
    if calls != [] {
      var n := |calls| - 1;
      SlotsKeepInterval(zero, gap, calls[..n]);
      SlotsAreLeast(zero, gap, calls[..n], times[..n]);
      assert n > 0 ==> times[n] - times[n - 1] >= gap;
    }
  }
}
