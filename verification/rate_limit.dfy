/**
 * middleware/rateLimitMiddleware.go: a token bucket per client key. A call refills the
 * bucket by the elapsed time times the rate, capped at the burst size, and admits the
 * request by consuming one token. Token counts are reals (the source's float64), the
 * clock is the parameter `now` in seconds, and the background cleanup goroutine is its
 * sweep body, `Sweep`, called with the time of the tick.
 */
module RateLimit {
  import opened Wrappers

  /** The cleanup ticker period (five minutes) and the idle age after which a bucket is dropped (one hour). */
  const CleanupInterval: real := 300.0
  const IdleWindow: real := 3600.0

  const StatusTooManyRequests := 429

  datatype Bucket = Bucket(tokens: real, lastRefill: real)

  datatype Limiter = Limiter(rate: real, burst: int, cleanupInterval: real, buckets: map<string, Bucket>)

  /** NewRateLimiter: the given rate and burst, a five-minute sweep period and no buckets. */
  function NewRateLimiter(rate: real, burst: int): (l: Limiter)
    ensures l.rate == rate && l.burst == burst && l.cleanupInterval == CleanupInterval
    ensures forall key :: key !in l.buckets
  {
    Limiter(rate, burst, CleanupInterval, map[])
  }

  /** min on float64. */
  function Min(a: real, b: real): (r: real)
    ensures r <= a && r <= b
    ensures r == a || r == b
  {
    if a < b then a else b
  }

  /** The bucket a call works on: the stored one, or a full bucket stamped `now` for an unseen key. */
  function BucketFor(l: Limiter, key: string, now: real): Bucket {
    if key in l.buckets then l.buckets[key] else Bucket(l.burst as real, now)
  }

  /** The token count after the refill step. */
  function Refilled(b: Bucket, rate: real, burst: int, now: real): (t: real)
    ensures t <= burst as real
    ensures t <= b.tokens + (now - b.lastRefill) * rate
    ensures t == burst as real || t == b.tokens + (now - b.lastRefill) * rate
  {
    Min(burst as real, b.tokens + (now - b.lastRefill) * rate)
  }

  /** A bucket stamped at the current instant gains nothing from the refill. */
  lemma RefillSameInstant(b: Bucket, rate: real, burst: int, now: real)
    requires b.lastRefill == now && b.tokens <= burst as real
    ensures Refilled(b, rate, burst, now) == b.tokens
  {
    assert now - b.lastRefill == 0.0;
    assert (now - b.lastRefill) * rate == 0.0;
    assert b.tokens + (now - b.lastRefill) * rate == b.tokens;
    assert Refilled(b, rate, burst, now) == Min(burst as real, b.tokens);
  }

  datatype Decision = Decision(admitted: bool, limiter: Limiter)

  /**
   * Allow: refill the key's bucket, stamp it `now`, and admit exactly when at least one
   * token is there, consuming it. Only the key's own bucket changes.
   */
  function Allow(l: Limiter, key: string, now: real): (d: Decision)
    ensures d.limiter == l.(buckets := d.limiter.buckets)
    ensures key in d.limiter.buckets && d.limiter.buckets == l.buckets[key := d.limiter.buckets[key]]
    ensures d.limiter.buckets[key].lastRefill == now
    ensures var t := Refilled(BucketFor(l, key, now), l.rate, l.burst, now);
            && (d.admitted <==> t >= 1.0)
            && d.limiter.buckets[key].tokens == (if d.admitted then t - 1.0 else t)
    ensures d.limiter.buckets[key].tokens <= l.burst as real
  {
    var t := Refilled(BucketFor(l, key, now), l.rate, l.burst, now);
    if t >= 1.0 then Decision(true, l.(buckets := l.buckets[key := Bucket(t - 1.0, now)]))
    else Decision(false, l.(buckets := l.buckets[key := Bucket(t, now)]))
  }

  /** Every bucket holds between zero and `burst` tokens. */
  ghost predicate Inv(l: Limiter) {
    forall key | key in l.buckets :: 0.0 <= l.buckets[key].tokens <= l.burst as real
  }

  /** No bucket was refilled after `now`: the clock never runs backwards. */
  ghost predicate NotAfter(l: Limiter, now: real) {
    forall key | key in l.buckets :: l.buckets[key].lastRefill <= now
  }

  lemma MulNonneg(a: real, b: real)
    requires 0.0 <= a && 0.0 <= b
    ensures 0.0 <= a * b
  {
  }

  /** Refilling a non-negative bucket at a later instant keeps it non-negative. */
  lemma RefillNonneg(b: Bucket, rate: real, burst: int, now: real)
    requires 0.0 <= b.tokens && b.lastRefill <= now
    requires 0.0 <= rate && 0 <= burst
    ensures 0.0 <= Refilled(b, rate, burst, now)
  {
    var elapsed := now - b.lastRefill;
    MulNonneg(elapsed, rate);
    var gained := elapsed * rate;
    assert 0.0 <= gained;
    var t := Refilled(b, rate, burst, now);
    assert t == burst as real || t == b.tokens + gained;
  }

  /** With a non-negative rate and burst and a clock that does not run backwards, no bucket goes negative or overfills. */
  lemma AllowKeepsInv(l: Limiter, key: string, now: real)
    requires Inv(l) && NotAfter(l, now)
    requires l.rate >= 0.0 && l.burst >= 0
    ensures Inv(Allow(l, key, now).limiter)
    ensures NotAfter(Allow(l, key, now).limiter, now)
  {
    var b := BucketFor(l, key, now);
    if key in l.buckets {
      assert b == l.buckets[key];
    } else {
      assert b == Bucket(l.burst as real, now);
    }
    RefillNonneg(b, l.rate, l.burst, now);
    var l' := Allow(l, key, now).limiter;
    forall k | k in l'.buckets ensures 0.0 <= l'.buckets[k].tokens <= l'.burst as real {
      if k != key {
        assert l'.buckets[k] == l.buckets[k];
      }
    }
  }

  /** A fresh limiter satisfies the invariant. */
  lemma NewRateLimiterInv(rate: real, burst: int, now: real)
    ensures Inv(NewRateLimiter(rate, burst)) && NotAfter(NewRateLimiter(rate, burst), now)
  {
  }

  datatype Run = Run(results: seq<bool>, limiter: Limiter)

  /** `n` successive calls for one key at the same instant. */
  function Repeat(l: Limiter, key: string, now: real, n: nat): (r: Run)
    ensures |r.results| == n
    ensures r.limiter == l.(buckets := r.limiter.buckets)
    decreases n
  {
    if n == 0 then Run([], l)
    else
      var d := Allow(l, key, now);
      var rest := Repeat(d.limiter, key, now, n - 1);
      Run([d.admitted] + rest.results, rest.limiter)
  }

  /**
   * At one instant, a bucket that refills to `k` whole tokens admits exactly the first
   * `k` calls and rejects the rest; afterwards it is stamped `now` and holds the tokens
   * that were not consumed.
   */
  lemma {:induction false} DrainAtInstant(l: Limiter, key: string, now: real, k: nat, n: nat)
    requires Refilled(BucketFor(l, key, now), l.rate, l.burst, now) == k as real
    ensures var r := Repeat(l, key, now, n);
            forall i | 0 <= i < n :: r.results[i] <==> i < k
    ensures n > 0 ==>
              var r := Repeat(l, key, now, n);
              key in r.limiter.buckets && r.limiter.buckets[key] == Bucket((if n <= k then k - n else 0) as real, now)
    decreases n
  {
    if n > 0 {
      var d := Allow(l, key, now);
      var k' := if k >= 1 then k - 1 else 0;
      assert d.limiter.buckets[key] == Bucket(k' as real, now);
      assert BucketFor(d.limiter, key, now) == Bucket(k' as real, now);
      assert k' as real <= k as real <= l.burst as real;
      RefillSameInstant(Bucket(k' as real, now), l.rate, l.burst, now);
      DrainAtInstant(d.limiter, key, now, k', n - 1);
      var r := Repeat(l, key, now, n);
      var rest := Repeat(d.limiter, key, now, n - 1);
      assert r.results == [d.admitted] + rest.results;
      forall i | 0 <= i < n ensures r.results[i] <==> i < k {
        if i > 0 { assert r.results[i] == rest.results[i - 1]; }
      }
    }
  }

  /** An unseen key admits exactly `burst` calls at one instant, and the next one is rejected. */
  lemma FreshKeyAdmitsBurst(l: Limiter, key: string, now: real)
    requires key !in l.buckets && l.burst >= 0
    ensures var r := Repeat(l, key, now, l.burst + 1);
            forall i | 0 <= i <= l.burst :: r.results[i] <==> i < l.burst
  {
    DrainAtInstant(l, key, now, l.burst, l.burst + 1);
  }

  /**
   * The authentication endpoints' limiter (5 tokens a second, burst 20): a new client
   * gets 20 requests at once and then a rejection; one second later it gets 5 more and
   * then a rejection.
   */
  lemma AuthLimiterScenario(key: string, t: real)
    ensures var first := Repeat(NewRateLimiter(5.0, 20), key, t, 21);
            && (forall i | 0 <= i < 21 :: first.results[i] <==> i < 20)
            && var second := Repeat(first.limiter, key, t + 1.0, 6);
               forall i | 0 <= i < 6 :: second.results[i] <==> i < 5
  {
    var l := NewRateLimiter(5.0, 20);
    DrainAtInstant(l, key, t, 20, 21);
    var first := Repeat(l, key, t, 21);
    assert first.limiter.buckets[key] == Bucket(0.0, t);
    assert Refilled(BucketFor(first.limiter, key, t + 1.0), 5.0, 20, t + 1.0) == 5.0;
    DrainAtInstant(first.limiter, key, t + 1.0, 5, 6);
  }

  /** The sweep body of cleanupRoutine: drop every bucket idle for more than an hour at `now`. */
  function Sweep(l: Limiter, now: real): (r: Limiter)
    ensures r == l.(buckets := r.buckets)
    ensures forall key | key in l.buckets :: key in r.buckets <==> now - l.buckets[key].lastRefill <= IdleWindow
    ensures forall key | key in r.buckets :: key in l.buckets && r.buckets[key] == l.buckets[key]
  {
    l.(buckets := map key | key in l.buckets && now - l.buckets[key].lastRefill <= IdleWindow :: l.buckets[key])
  }

  /** Sweeping keeps the invariant, and sweeping twice at one instant is sweeping once. */
  lemma SweepKeepsInv(l: Limiter, now: real)
    requires Inv(l)
    ensures Inv(Sweep(l, now))
    ensures Sweep(Sweep(l, now), now) == Sweep(l, now)
  {
  }

  /** A sweep does not change what the next call for a recently used key decides. */
  lemma SweepSparesRecentKey(l: Limiter, key: string, now: real)
    requires key in l.buckets && now - l.buckets[key].lastRefill <= IdleWindow
    ensures Allow(Sweep(l, now), key, now).admitted == Allow(l, key, now).admitted
  {
  }

  /**
   * After a sweep, a client idle for more than an hour is treated as new: its next call
   * sees a full bucket, whatever it had consumed before.
   */
  lemma SweptKeyStartsFull(l: Limiter, key: string, now: real)
    requires key in l.buckets && now - l.buckets[key].lastRefill > IdleWindow
    requires l.burst >= 1
    ensures Allow(Sweep(l, now), key, now).admitted
    ensures Allow(Sweep(l, now), key, now).limiter.buckets[key].tokens == l.burst as real - 1.0
  {
  }

  /** getClientIP of this file: the whole X-Forwarded-For value, else X-Real-IP, else the remote address. */
  function ClientKey(forwardedFor: string, realIp: string, remoteAddr: string): (key: string)
    ensures forwardedFor != "" ==> key == forwardedFor
    ensures forwardedFor == "" && realIp != "" ==> key == realIp
    ensures forwardedFor == "" && realIp == "" ==> key == remoteAddr
  {
    if forwardedFor != "" then forwardedFor
    else if realIp != "" then realIp
    else remoteAddr
  }

  /**
   * The key comes from a header the client writes: a client that sends an X-Forwarded-For
   * value not seen before always gets a full bucket, so with burst at least one it is admitted.
   */
  lemma FreshForwardedForIsAdmitted(l: Limiter, forwardedFor: string, realIp: string, remoteAddr: string, now: real)
    requires forwardedFor != "" && forwardedFor !in l.buckets
    requires l.burst >= 1
    ensures Allow(l, ClientKey(forwardedFor, realIp, remoteAddr), now).admitted
  {
    var key := ClientKey(forwardedFor, realIp, remoteAddr);
    assert key == forwardedFor;
    assert BucketFor(l, key, now) == Bucket(l.burst as real, now);
    RefillSameInstant(Bucket(l.burst as real, now), l.rate, l.burst, now);
  }

  datatype GateOutcome = GateOutcome(status: Option<int>, limiter: Limiter)

  /** RateLimitMiddleware: 429 when the client's bucket refuses the call, otherwise the next handler (None). */
  function RateLimitGate(l: Limiter, forwardedFor: string, realIp: string, remoteAddr: string, now: real): (g: GateOutcome)
    ensures var key := ClientKey(forwardedFor, realIp, remoteAddr);
            && g.limiter == Allow(l, key, now).limiter
            && (g.status == None <==> Allow(l, key, now).admitted)
            && (g.status != None ==> g.status == Some(StatusTooManyRequests))
  {
    var d := Allow(l, ClientKey(forwardedFor, realIp, remoteAddr), now);
    GateOutcome(if d.admitted then None else Some(StatusTooManyRequests), d.limiter)
  }
}
