/** The fixed-window rate limiter middleware
    (src/middleware/builtins/rate-limit.js). The clock is a parameter
    (`now`, in milliseconds); the response it writes is returned as an
    outcome. */
module RateLimit {
  import opened Wrappers

  /** The record kept per client address. */
  datatype Hit = Hit(count: int, resetTime: int)

  /** What the middleware does with a request: answer 429 with the error
      message and stop, or call `next`. */
  datatype Outcome = TooMany(status: int, error: string) | CallNext

  /** `ctx.req.socket.remoteAddress || 'unknown'`. */
  function ClientKey(remoteAddress: Option<string>): (k: string)
    ensures remoteAddress.Some? && remoteAddress.value != "" ==> k == remoteAddress.value
    ensures remoteAddress.None? || remoteAddress.value == "" ==> k == "unknown"
  {
    if remoteAddress.Some? && remoteAddress.value != "" then remoteAddress.value else "unknown"
  }

  /** The record after a request at `now`: a missing record, or one whose
      window ended strictly before `now`, starts a new window; either way
      the request is counted. */
  function Visit(prior: Option<Hit>, now: int, windowMs: int): (h: Hit)
    ensures prior.None? || now > prior.value.resetTime ==> h == Hit(1, now + windowMs)
    ensures prior.Some? && now <= prior.value.resetTime ==>
      h == Hit(prior.value.count + 1, prior.value.resetTime)
  {
    var start := if prior.None? || now > prior.value.resetTime then Hit(0, now + windowMs) else prior.value;
    start.(count := start.count + 1)
  }

  /** A request counted past `max` is refused. */
  predicate Refused(h: Hit, max: int) {
    h.count > max
  }

  function ErrorText(message: string): string {
    if message != "" then message else "Too many requests"
  }

  /** The limiter one call of `rateLimit(options)` returns, with its `hits`
      table. `passed` counts, per key, the requests of the current window
      that were let through. */
  class Limiter {
    const windowMs: int
    const max: int
    const message: string
    var hits: map<string, Hit>
    ghost var passed: map<string, int>

    ghost predicate Valid()
      reads this
    {
      Inv(hits, passed, max)
    }

    constructor (windowMs: int, max: int, message: string)
      ensures this.windowMs == windowMs && this.max == max && this.message == message
      ensures hits == map[] && Valid()
    {
      this.windowMs := windowMs;
      this.max := max;
      this.message := message;
      hits := map[];
      passed := map[];
    }

    /** One request from `remoteAddress` at `now`. */
    method Handle(remoteAddress: Option<string>, now: int) returns (out: Outcome)
      requires Valid()
      modifies this
      ensures Valid()
      ensures var k := ClientKey(remoteAddress);
        var h := Visit(if k in old(hits) then Some(old(hits)[k]) else None, now, windowMs);
        && hits == old(hits)[k := h]
        && (out == if Refused(h, max) then TooMany(429, ErrorText(message)) else CallNext)
    {
      var ip := if remoteAddress.Some? && remoteAddress.value != "" then remoteAddress.value else "unknown";
      var record: Hit;
      ghost var before: int;
      if ip !in hits || now > hits[ip].resetTime {
        record := Hit(0, now + windowMs);
        hits := hits[ip := record];
        before := 0;
      } else {
        record := hits[ip];
        before := passed[ip];
      }
      record := record.(count := record.count + 1);
      hits := hits[ip := record];
      passed := passed[ip := if record.count > max then before else before + 1];
      KeepsInv(old(hits), old(passed), max, ip, record, before);
      if record.count > max {
        return TooMany(429, ErrorText(message));
      }
      return CallNext;
    }

    /** Never more than `max` requests per key pass in one window. */
    lemma PassedBounded(k: string)
      requires Valid() && k in passed
      ensures passed[k] <= Max0(max)
    {
    }
  }

  /** Each record's count is at least one, and the requests let through in
      its window are the first `max` of them: never more than `max`. */
  ghost predicate Inv(hits: map<string, Hit>, passed: map<string, int>, max: int) {
    && hits.Keys == passed.Keys
    && forall k :: k in hits ==> hits[k].count >= 1 && passed[k] == Min(hits[k].count, Max0(max))
  }

  /** The bookkeeping of one request keeps the invariant. */
  lemma KeepsInv(hits: map<string, Hit>, passed: map<string, int>, max: int, ip: string, record: Hit, before: int)
    requires Inv(hits, passed, max)
    requires (ip in hits && record.count == hits[ip].count + 1 && before == passed[ip])
      || (record.count == 1 && before == 0)
    ensures Inv(hits[ip := record], passed[ip := if record.count > max then before else before + 1], max)
  {
  }

  function Min(a: int, b: int): int { if a <= b then a else b }
  function Max0(a: int): int { if a >= 0 then a else 0 }

  // ---------------------------------------------------------------------
  // Sequences of requests from one client

  /** The records and outcomes of a series of requests from one key,
      starting from `prior`. */
  function Replay(prior: Option<Hit>, times: seq<int>, windowMs: int, max: int): (r: seq<bool>)
    ensures |r| == |times|
    decreases |times|
  {
    if times == [] then []
    else
      var h := Visit(prior, times[0], windowMs);
      [!Refused(h, max)] + Replay(Some(h), times[1..], windowMs, max)
  }

  function CountTrue(bs: seq<bool>): nat {
    if bs == [] then 0 else (if bs[0] then 1 else 0) + CountTrue(bs[1..])
  }

  /** Requests that all fall within one window — the first opens it and the
      rest come no later than its end — let exactly the first `max` through. */
  lemma OneWindowAtMostMax(times: seq<int>, windowMs: int, max: int)
    requires times != []
    requires forall i :: 0 <= i < |times| ==> times[i] <= times[0] + windowMs
    ensures CountTrue(Replay(None, times, windowMs, max)) == Min(|times|, Max0(max))
  {
    var h := Visit(None, times[0], windowMs);
    assert h == Hit(1, times[0] + windowMs);
    forall i | 0 <= i < |times[1..]| ensures times[1..][i] <= h.resetTime {
      assert times[1..][i] == times[i + 1];
    }
    WithinWindow(h, times[1..], windowMs, max);
  }

  /** `a` clamped to `0..n`. */
  function Clamp(a: int, n: nat): nat {
    if a <= 0 then 0 else if a >= n then n else a
  }

  /** Within a window whose record has counted `h.count` requests, the
      following requests pass while the count stays within `max`. */
  lemma {:induction false} WithinWindow(h: Hit, rest: seq<int>, windowMs: int, max: int)
    requires forall i :: 0 <= i < |rest| ==> rest[i] <= h.resetTime
    ensures CountTrue(Replay(Some(h), rest, windowMs, max)) == Clamp(max - h.count, |rest|)
    decreases |rest|
  {
    if rest != [] {
      var next := Visit(Some(h), rest[0], windowMs);
      assert next == Hit(h.count + 1, h.resetTime);
      forall i | 0 <= i < |rest[1..]| ensures rest[1..][i] <= next.resetTime {
        assert rest[1..][i] == rest[i + 1];
      }
      WithinWindow(next, rest[1..], windowMs, max);
    }
  }
}
