/** The fixed-window request counter kept in Redis, and what it guarantees over whole traces. */
module RateLimit {
  /** A counter key: one caller, one window. */
  datatype Bucket = Bucket(subject: string, window: int)

  datatype Counter = Counter(count: nat, expiresAt: real)

  datatype Verdict = Allowed | Refused(retryAfter: int)

  datatype Limits = Limits(maxRequests: nat, windowSeconds: nat)

  function WindowOf(now: real, windowSeconds: nat): int
    requires windowSeconds >= 1
  {
    (now / windowSeconds as real).Floor
  }

  function Ceiling(x: real): int { -(-x).Floor }

  /** INCR sees a missing or expired key as zero. */
  function CountNow(counters: map<Bucket, Counter>, b: Bucket, now: real): nat {
    if b in counters && now < counters[b].expiresAt then counters[b].count else 0
  }

  /** INCR and EXPIRE in one transaction: count this request and keep the key one second past a window length. */
  function Increment(l: Limits, counters: map<Bucket, Counter>, subject: string, now: real): map<Bucket, Counter>
    requires l.windowSeconds >= 1
  {
    var b := Bucket(subject, WindowOf(now, l.windowSeconds));
    counters[b := Counter(CountNow(counters, b, now) + 1, now + (l.windowSeconds + 1) as real)]
  }

  function RetryAfter(l: Limits, now: real): int
    requires l.windowSeconds >= 1
  {
    var wait := Ceiling(((WindowOf(now, l.windowSeconds) + 1) * l.windowSeconds) as real - now);
    if wait > 1 then wait else 1
  }

  function Judge(l: Limits, counters: map<Bucket, Counter>, subject: string, now: real): Verdict
    requires l.windowSeconds >= 1
  {
    if CountNow(counters, Bucket(subject, WindowOf(now, l.windowSeconds)), now) + 1 > l.maxRequests
    then Refused(RetryAfter(l, now)) else Allowed
  }

  class RateLimiter {
    const limits: Limits
    var counters: map<Bucket, Counter>   // in Redis, shared by every replica

    constructor (limits: Limits)
      ensures this.limits == limits && counters == map[]
    {
      this.limits, counters := limits, map[];
    }

    /** If Redis is down the request is let through and nothing is counted. */
    method Enforce(subject: string, now: real, redisUp: bool) returns (v: Verdict)
      requires limits.windowSeconds >= 1
      modifies this
      ensures redisUp ==> counters == Increment(limits, old(counters), subject, now)
      ensures redisUp ==> v == Judge(limits, old(counters), subject, now)
      ensures !redisUp ==> v == Allowed && counters == old(counters)
    {
      if !redisUp { return Allowed; }
      var window := WindowOf(now, limits.windowSeconds);
      var key := Bucket(subject, window);
      var count := 1;
      if key in counters && now < counters[key].expiresAt {
        count := counters[key].count + 1;
      }
      counters := counters[key := Counter(count, now + (limits.windowSeconds + 1) as real)];
      if count > limits.maxRequests {
        var wait := Ceiling(((window + 1) * limits.windowSeconds) as real - now);
        return Refused(if wait > 1 then wait else 1);
      }
      return Allowed;
    }
  }

  // ---------------------------------------------------------------------------
  // Windows
  // ---------------------------------------------------------------------------

  function WindowEnd(w: int, windowSeconds: nat): real {
    ((w + 1) * windowSeconds) as real
  }

  /** The expiry set at any moment of a window lies beyond its end, which lies beyond that moment. */
  lemma ExpiryOutlivesWindow(now: real, windowSeconds: nat)
    requires windowSeconds >= 1
    ensures now < WindowEnd(WindowOf(now, windowSeconds), windowSeconds) < now + (windowSeconds + 1) as real
  {
    WindowBounds(now, windowSeconds);
    WindowSpan(WindowOf(now, windowSeconds), windowSeconds);
  }

  lemma WindowSpan(w: int, windowSeconds: nat)
    ensures WindowEnd(w, windowSeconds) == (w * windowSeconds) as real + windowSeconds as real
  {
    assert (w + 1) * windowSeconds == w * windowSeconds + windowSeconds;
  }

  lemma WindowBounds(now: real, windowSeconds: nat)
    requires windowSeconds >= 1
    ensures var w := WindowOf(now, windowSeconds);
            (w * windowSeconds) as real <= now < ((w + 1) * windowSeconds) as real
  {
    var x := now / windowSeconds as real;
    DivideBack(now, windowSeconds as real);
    ScaledBelow(x, x.Floor, windowSeconds);
    ScaledAbove(x, x.Floor + 1, windowSeconds);
  }

  lemma DivideBack(x: real, size: real)
    requires size > 0.0
    ensures x / size * size == x
  {
  }

  lemma {:induction false} ScaledBelow(x: real, w: int, n: nat)
    requires w as real <= x
    ensures (w * n) as real <= x * n as real
  {
    if n > 0 {
      ScaledBelow(x, w, n - 1);
      assert w * n == w * (n - 1) + w;
      assert x * n as real == x * (n - 1) as real + x;
    }
  }

  lemma {:induction false} ScaledAbove(x: real, w: int, n: nat)
    requires n >= 1 && x < w as real
    ensures x * n as real < (w * n) as real
  {
    if n > 1 {
      ScaledAbove(x, w, n - 1);
      assert w * n == w * (n - 1) + w;
      assert x * n as real == x * (n - 1) as real + x;
    }
  }

  lemma WholeWindows(v: int, w: int, windowSeconds: nat)
    ensures v <= w ==> v * windowSeconds <= w * windowSeconds
  {
  }

  /** The bounds determine the window. */
  lemma WindowFromBounds(now: real, w: int, windowSeconds: nat)
    requires windowSeconds >= 1
    requires (w * windowSeconds) as real <= now < ((w + 1) * windowSeconds) as real
    ensures WindowOf(now, windowSeconds) == w
  {
    var v := WindowOf(now, windowSeconds);
    WindowBounds(now, windowSeconds);
    WholeWindows(v + 1, w, windowSeconds);
    WholeWindows(w + 1, v, windowSeconds);
  }

  lemma WindowMonotone(now: real, later: real, windowSeconds: nat)
    requires windowSeconds >= 1 && now <= later
    ensures WindowOf(now, windowSeconds) <= WindowOf(later, windowSeconds)
  {
    var v, w := WindowOf(now, windowSeconds), WindowOf(later, windowSeconds);
    WindowBounds(now, windowSeconds);
    WindowBounds(later, windowSeconds);
    WholeWindows(w + 1, v, windowSeconds);
  }

  /**
   A refused caller that waits Retry-After seconds lands in a later window, and it is the least whole number of
   seconds (of at least one) that does.
   */
  lemma RetryLandsLater(l: Limits, now: real)
    requires l.windowSeconds >= 1
    ensures var wait := RetryAfter(l, now);
            && wait >= 1
            && WindowOf(now + wait as real, l.windowSeconds) > WindowOf(now, l.windowSeconds)
            && (wait > 1 ==> WindowOf(now + (wait - 1) as real, l.windowSeconds) == WindowOf(now, l.windowSeconds))
  {
    var w, wait := WindowOf(now, l.windowSeconds), RetryAfter(l, now);
    WindowBounds(now, l.windowSeconds);
    var end := ((w + 1) * l.windowSeconds) as real;
    assert now + wait as real >= end;
    WindowBounds(now + wait as real, l.windowSeconds);
    var v := WindowOf(now + wait as real, l.windowSeconds);
    WholeWindows(v + 1, w + 1, l.windowSeconds);
    if wait > 1 {
      assert now + (wait - 1) as real < end;
      WindowFromBounds(now + (wait - 1) as real, w, l.windowSeconds);
    }
  }

  // ---------------------------------------------------------------------------
  // Traces
  // ---------------------------------------------------------------------------

  datatype Request = Request(subject: string, at: real)

  function Counters(l: Limits, trace: seq<Request>): map<Bucket, Counter>
    requires l.windowSeconds >= 1
  {
    if trace == [] then map[]
    else
      var last := trace[|trace| - 1];
      Increment(l, Counters(l, trace[..|trace| - 1]), last.subject, last.at)
  }

  /** The answer to request i of the trace. */
  function VerdictAt(l: Limits, trace: seq<Request>, i: nat): Verdict
    requires l.windowSeconds >= 1 && i < |trace|
  {
    Judge(l, Counters(l, trace[..i]), trace[i].subject, trace[i].at)
  }

  /** Requests of a caller that fall in a window, among the first n. */
  function Requests(l: Limits, trace: seq<Request>, n: nat, b: Bucket): nat
    requires l.windowSeconds >= 1 && n <= |trace|
  {
    if n == 0 then 0
    else
      Requests(l, trace, n - 1, b)
      + (if b == Bucket(trace[n - 1].subject, WindowOf(trace[n - 1].at, l.windowSeconds)) then 1 else 0)
  }

  /** Accepted requests of a caller in a window, among the first n. */
  function Accepted(l: Limits, trace: seq<Request>, n: nat, b: Bucket): nat
    requires l.windowSeconds >= 1 && n <= |trace|
  {
    if n == 0 then 0
    else
      Accepted(l, trace, n - 1, b)
      + (if b == Bucket(trace[n - 1].subject, WindowOf(trace[n - 1].at, l.windowSeconds))
            && VerdictAt(l, trace, n - 1).Allowed? then 1 else 0)
  }

  /** Accepted requests of a caller in a span of time. */
  function AcceptedBetween(l: Limits, trace: seq<Request>, n: nat, subject: string, from: real, to: real): nat
    requires l.windowSeconds >= 1 && n <= |trace|
  {
    if n == 0 then 0
    else
      AcceptedBetween(l, trace, n - 1, subject, from, to)
      + (if trace[n - 1].subject == subject && from <= trace[n - 1].at <= to && VerdictAt(l, trace, n - 1).Allowed? then 1 else 0)
  }

  /** One bucket's counter. */
  ghost predicate ExactFor(l: Limits, counters: map<Bucket, Counter>, requests: nat, b: Bucket)
  {
    && (b in counters <==> requests > 0)
    && (b in counters ==>
          counters[b].count == requests && counters[b].expiresAt > WindowEnd(b.window, l.windowSeconds))
  }

  /** Every counter in Redis holds exactly its caller's requests in its window, and outlives the window. */
  ghost predicate Exact(l: Limits, trace: seq<Request>, n: nat)
    requires l.windowSeconds >= 1 && n <= |trace|
  {
    forall b: Bucket :: ExactFor(l, Counters(l, trace[..n]), Requests(l, trace, n, b), b)
  }

  lemma IncrementIsExact(l: Limits, counters: map<Bucket, Counter>, r: Request, requests: nat, b: Bucket)
    requires l.windowSeconds >= 1
    requires ExactFor(l, counters, requests, b)
    ensures var hit := b == Bucket(r.subject, WindowOf(r.at, l.windowSeconds));
            ExactFor(l, Increment(l, counters, r.subject, r.at), if hit then requests + 1 else requests, b)
    ensures b == Bucket(r.subject, WindowOf(r.at, l.windowSeconds)) ==> CountNow(counters, b, r.at) == requests
  {
    ExpiryOutlivesWindow(r.at, l.windowSeconds);
  }

  lemma {:induction false} CountersAreExact(l: Limits, trace: seq<Request>, n: nat)
    requires l.windowSeconds >= 1 && n <= |trace|
    ensures Exact(l, trace, n)
  {
    if n > 0 {
      CountersAreExact(l, trace, n - 1);
      assert trace[..n][..n - 1] == trace[..n - 1];
      forall b: Bucket ensures ExactFor(l, Counters(l, trace[..n]), Requests(l, trace, n, b), b) {
        IncrementIsExact(l, Counters(l, trace[..n - 1]), trace[n - 1], Requests(l, trace, n - 1, b), b);
      }
    }
  }

  /** A counter never expires before its window ends, so request i is counted as exactly what it is: the k-th. */
  lemma VerdictIsByRank(l: Limits, trace: seq<Request>, i: nat)
    requires l.windowSeconds >= 1 && i < |trace|
    ensures var b := Bucket(trace[i].subject, WindowOf(trace[i].at, l.windowSeconds));
            VerdictAt(l, trace, i).Allowed? <==> Requests(l, trace, i + 1, b) <= l.maxRequests
  {
    var b := Bucket(trace[i].subject, WindowOf(trace[i].at, l.windowSeconds));
    CountersAreExact(l, trace, i);
    assert ExactFor(l, Counters(l, trace[..i]), Requests(l, trace, i, b), b);
    IncrementIsExact(l, Counters(l, trace[..i]), trace[i], Requests(l, trace, i, b), b);
  }

  /** Each window accepts exactly the first `maxRequests` of a caller's requests, and no more. */
  lemma {:induction false} WindowBudget(l: Limits, trace: seq<Request>, n: nat, b: Bucket)
    requires l.windowSeconds >= 1 && n <= |trace|
    ensures Accepted(l, trace, n, b) ==
            if Requests(l, trace, n, b) <= l.maxRequests then Requests(l, trace, n, b) else l.maxRequests
  {
    if n > 0 {
      WindowBudget(l, trace, n - 1, b);
      VerdictIsByRank(l, trace, n - 1);
    }
  }

  /** A moment at most one window length after another is in the same window or the next. */
  lemma SameOrNextWindow(from: real, at: real, windowSeconds: nat)
    requires windowSeconds >= 1 && from <= at <= from + windowSeconds as real
    ensures WindowOf(from, windowSeconds) <= WindowOf(at, windowSeconds) <= WindowOf(from, windowSeconds) + 1
  {
    var v, w := WindowOf(at, windowSeconds), WindowOf(from, windowSeconds);
    WindowMonotone(from, at, windowSeconds);
    WindowBounds(from, windowSeconds);
    WindowBounds(at, windowSeconds);
    WholeWindows(w + 2, v, windowSeconds);
    assert ((w + 2) * windowSeconds) as real == ((w + 1) * windowSeconds) as real + windowSeconds as real;
  }

  lemma {:induction false} SpanWithinTwoWindows(l: Limits, trace: seq<Request>, n: nat, subject: string, from: real, to: real)
    requires l.windowSeconds >= 1 && n <= |trace| && to - from <= l.windowSeconds as real
    ensures var w := WindowOf(from, l.windowSeconds);
            AcceptedBetween(l, trace, n, subject, from, to)
            <= Accepted(l, trace, n, Bucket(subject, w)) + Accepted(l, trace, n, Bucket(subject, w + 1))
  {
    if n > 0 {
      SpanWithinTwoWindows(l, trace, n - 1, subject, from, to);
      if from <= trace[n - 1].at <= to {
        SameOrNextWindow(from, trace[n - 1].at, l.windowSeconds);
      }
    }
  }

  /** Over any span no longer than a window, a caller gets at most twice the limit. */
  lemma TwiceTheLimit(l: Limits, trace: seq<Request>, subject: string, from: real, to: real)
    requires l.windowSeconds >= 1 && to - from <= l.windowSeconds as real
    ensures AcceptedBetween(l, trace, |trace|, subject, from, to) <= 2 * l.maxRequests
  {
    var w := WindowOf(from, l.windowSeconds);
    SpanWithinTwoWindows(l, trace, |trace|, subject, from, to);
    WindowBudget(l, trace, |trace|, Bucket(subject, w));
    WindowBudget(l, trace, |trace|, Bucket(subject, w + 1));
  }

  /**
   What a refused request is told: the wait reaches a later window, where this one's requests no longer count, and
   no shorter whole wait of at least a second does.
   */
  lemma RefusalSaysWhen(l: Limits, trace: seq<Request>, i: nat)
    requires l.windowSeconds >= 1 && i < |trace| && VerdictAt(l, trace, i).Refused?
    ensures var at, wait := trace[i].at, VerdictAt(l, trace, i).retryAfter;
            && wait >= 1
            && WindowOf(at + wait as real, l.windowSeconds) > WindowOf(at, l.windowSeconds)
            && (wait > 1 ==> WindowOf(at + (wait - 1) as real, l.windowSeconds) == WindowOf(at, l.windowSeconds))
  {
    RetryLandsLater(l, trace[i].at);
  }
}
