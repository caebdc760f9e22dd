/** One token bucket of golang.org/x/time/rate, as the rate limiting middleware uses it (internal/httpx/ratelimit.go).
    Arithmetic is exact. Times are in token time, seconds multiplied by the configured rate, so that a bucket gains one
    token per unit; operations on a bucket take effect one at a time, in time order. */
module TokenBucket {

  datatype Bucket = Bucket(tokens: real, last: real, lastEvent: real)

  function Min(x: real, y: real): real { if x < y then x else y }

  /** Tokens at time `t`: refilled since the last update, capped at the burst. */
  function Level(b: Bucket, burst: nat, t: real): real {
    Min(burst as real, b.tokens + (if t < b.last then 0.0 else t - b.last))
  }

  /** `Allow`: takes a token if there is one. */
  function Allow(b: Bucket, burst: nat, t: real): (Bucket, bool) {
    var level := Level(b, burst, t);
    if level >= 1.0 then (Bucket(level - 1.0, t, t), true) else (b, false)
  }

  /** `Reserve`: takes a token that may still have to be earned; the result is the time to act. */
  function Reserve(b: Bucket, burst: nat, t: real): (Bucket, real) {
    var level := Level(b, burst, t) - 1.0;
    var act := if level < 0.0 then t - level else t;
    (Bucket(level, t, act), act)
  }

  /** `Cancel` of the reservation for `act`: gives back what later reservations have not taken, unless it is too
      late. */
  function Cancel(b: Bucket, burst: nat, act: real, t: real): Bucket {
    var restore := 1.0 - (b.lastEvent - act);
    if act < t || restore <= 0.0 then b
    else
      Bucket(Min(burst as real, Level(b, burst, t) + restore), t,
             if act == b.lastEvent && act - 1.0 >= t then act - 1.0 else b.lastEvent)
  }

  // ---- A bucket shared by concurrent handlers ------------------------------

  datatype Admission = Admission(handler: nat, at: real)

  /** The bucket, the reservations handlers still hold, and every admission so far. */
  datatype Shared = Shared(bucket: Bucket, held: map<nat, real>, admitted: seq<Admission>)

  function Fresh(burst: nat, now: real): Shared {
    Shared(Bucket(burst as real, now, now), map[], [])
  }

  function DoAllow(x: Shared, burst: nat, h: nat, t: real): (Shared, bool) {
    var (b, ok) := Allow(x.bucket, burst, t);
    (Shared(b, x.held, if ok then x.admitted + [Admission(h, t)] else x.admitted), ok)
  }

  function DoReserve(x: Shared, burst: nat, h: nat, t: real): Shared {
    var (b, act) := Reserve(x.bucket, burst, t);
    Shared(b, x.held[h := act], x.admitted)
  }

  function DoCancel(x: Shared, burst: nat, h: nat, t: real): Shared
    requires h in x.held
  {
    Shared(Cancel(x.bucket, burst, x.held[h], t), x.held - {h}, x.admitted)
  }

  // ---- What a bucket can come to hold --------------------------------------

  function Max(x: real, y: real): real { if x < y then y else x }

  /** The time at which the bucket, at one token per unit, is at zero. */
  function Empty(b: Bucket, burst: nat, t: real): real { t - Level(b, burst, t) }

  /** A convex weight that doubles with every token of debt: a bucket at zero `w` from now weighs `Weight(w)`, a
      reservation acting `w` from now weighs as much as the bucket it was taken from. */
  function Weight(w: real): real
    decreases if w <= 0.0 then 0 else w.Floor + 1
  {
    if w <= 0.0 then 2.0 + w else 2.0 * Weight(w - 1.0)
  }

  lemma {:induction false} WeightGrows(x: real, y: real)
    requires x <= y
    ensures Weight(y) - Weight(x) >= y - x && Weight(y) >= 2.0 + y
    decreases if y <= 0.0 then 0 else y.Floor + 1
  {
    if y > 0.0 {
      WeightGrows(x - 1.0, y - 1.0);
    }
  }

  lemma {:induction false} WeightIsConvex(x: real, y: real)
    requires x <= y
    ensures Weight(x) + Weight(y) >= 2.0 * Weight((x + y) / 2.0)
    decreases if y <= 0.0 then 0 else y.Floor + 1
  {
    var mid := (x + y) / 2.0;
    if mid <= 0.0 {
      WeightGrows(x, x);
      WeightGrows(y, y);
    } else {
      WeightIsConvex(x - 1.0, y - 1.0);
      assert (x - 1.0 + (y - 1.0)) / 2.0 == mid - 1.0;
    }
  }

  /** What a reservation that can still be cancelled may give back, seen from time `tau`. */
  function Claim(held: map<nat, real>, now: real, tau: real, h: nat): real {
    if h in held && held[h] >= now then Max(0.0, Weight(held[h] - tau - 1.0)) else 0.0
  }

  ghost function Claims(held: map<nat, real>, now: real, tau: real, keys: set<nat>): real {
    if keys == {} then 0.0
    else
      var h :| h in keys;
      Claim(held, now, tau, h) + Claims(held, now, tau, keys - {h})
  }

  lemma {:induction false} ClaimsSplit(held: map<nat, real>, now: real, tau: real, keys: set<nat>, h: nat)
    requires h in keys
    ensures Claims(held, now, tau, keys) == Claim(held, now, tau, h) + Claims(held, now, tau, keys - {h})
  {
    var k :| k in keys && Claims(held, now, tau, keys) == Claim(held, now, tau, k) + Claims(held, now, tau, keys - {k});
    if k != h {
      ClaimsSplit(held, now, tau, keys - {k}, h);
      ClaimsSplit(held, now, tau, keys - {h}, k);
      assert keys - {k} - {h} == keys - {h} - {k};
    }
  }

  lemma {:induction false} ClaimsShrink(held: map<nat, real>, now: real, tau: real,
                                        held': map<nat, real>, now': real, tau': real, keys: set<nat>)
    requires forall h <- keys :: Claim(held', now', tau', h) <= Claim(held, now, tau, h)
    ensures Claims(held', now', tau', keys) <= Claims(held, now, tau, keys)
  {
    if keys != {} {
      var h :| h in keys;
      ClaimsSplit(held, now, tau, keys, h);
      ClaimsSplit(held', now', tau', keys, h);
      ClaimsShrink(held, now, tau, held', now', tau', keys - {h});
    }
  }

  lemma {:induction false} PositiveClaim(held: map<nat, real>, now: real, tau: real, keys: set<nat>) returns (h: nat)
    requires Claims(held, now, tau, keys) > 0.0
    ensures h in keys && Claim(held, now, tau, h) > 0.0
  {
    h :| h in keys;
    if Claim(held, now, tau, h) <= 0.0 {
      ClaimsSplit(held, now, tau, keys, h);
      h := PositiveClaim(held, now, tau, keys - {h});
    }
  }

  ghost function Owed(x: Shared, now: real, tau: real): real { Claims(x.held, now, tau, x.held.Keys) }

  /** A bound, seen from `tau`, on what the bucket can come to hold if reservations are made and cancelled at will. */
  ghost function Reach(x: Shared, burst: nat, now: real, tau: real): real {
    Owed(x, now, tau) - Weight(Empty(x.bucket, burst, now) - tau) + 2.0
  }

  /** The earliest time from which a cancel can be seen: the last event if it is past. */
  function From(x: Shared, now: real): real { Min(now, x.bucket.lastEvent) }

  /** While a reservation can be cancelled, the bucket is at zero no later than the last event. */
  ghost predicate InStep(x: Shared, burst: nat, now: real, h: nat) {
    h in x.held && x.held[h] >= now ==> Empty(x.bucket, burst, now) <= x.bucket.lastEvent
  }

  /** Nothing cancelled takes the bucket above its burst. */
  ghost predicate Capped(x: Shared, burst: nat, now: real, tau: real) {
    From(x, now) <= tau && Owed(x, now, tau) > 0.0 ==> Reach(x, burst, now, tau) <= burst as real
  }

  /** What the bucket can come to hold, and the admissions since `i`, fit the burst and the refill since then. */
  ghost predicate Budgeted(x: Shared, burst: nat, now: real, i: nat, tau: real) {
    i < |x.admitted| && From(x, now) <= tau ==>
      && x.admitted[i].at <= now
      && Reach(x, burst, now, tau) - tau + (|x.admitted| - i) as real <= burst as real - x.admitted[i].at
  }

  /** The admissions from `i` to `j` fit the burst and the time they span. */
  ghost predicate WithinRate(admitted: seq<Admission>, burst: nat, i: nat, j: nat) {
    i <= j < |admitted| ==> (j - i + 1) as real <= burst as real + (admitted[j].at - admitted[i].at)
  }

  ghost predicate Ok(x: Shared, burst: nat, now: real) {
    && x.bucket.last <= now && x.bucket.tokens <= burst as real
    && (burst == 0 ==> x.admitted == [])
    && (burst > 0 ==>
          && (forall h: nat :: InStep(x, burst, now, h))
          && (forall tau: real :: Capped(x, burst, now, tau))
          && (forall i: nat, tau: real :: Budgeted(x, burst, now, i, tau)))
    && (forall i: nat, j: nat :: WithinRate(x.admitted, burst, i, j))
  }

  lemma FreshIsOk(burst: nat, now: real)
    ensures Ok(Fresh(burst, now), burst, now)
  {
  }

  /** A claim falls as it is seen from later, by at least the time between while it lasts. */
  lemma ClaimFalls(held: map<nat, real>, now: real, t0: real, t: real, h: nat)
    requires t0 <= t
    ensures Claim(held, now, t, h) <= Claim(held, now, t0, h)
    ensures Claim(held, now, t, h) > 0.0 ==> Claim(held, now, t, h) <= Claim(held, now, t0, h) - (t - t0)
  {
    if h in held {
      WeightGrows(held[h] - t - 1.0, held[h] - t0 - 1.0);
    }
  }

  lemma OwedFalls(x: Shared, now: real, t0: real, t: real)
    requires t0 <= t
    ensures Owed(x, now, t) <= Owed(x, now, t0)
    ensures Owed(x, now, t) > 0.0 ==> Owed(x, now, t) <= Owed(x, now, t0) - (t - t0)
  {
    var keys := x.held.Keys;
    forall h <- keys ensures Claim(x.held, now, t, h) <= Claim(x.held, now, t0, h) {
      ClaimFalls(x.held, now, t0, t, h);
    }
    ClaimsShrink(x.held, now, t0, x.held, now, t, keys);
    if Owed(x, now, t) > 0.0 {
      var h := PositiveClaim(x.held, now, t, keys);
      ClaimFalls(x.held, now, t0, t, h);
      ClaimsSplit(x.held, now, t, keys, h);
      ClaimsSplit(x.held, now, t0, keys, h);
      ClaimsShrink(x.held, now, t0, x.held, now, t, keys - {h});
    }
  }

  /** Seen from after the bucket is at zero, what it can come to hold grows no faster than the clock. */
  lemma ReachFalls(x: Shared, burst: nat, now: real, t0: real, t: real)
    requires Empty(x.bucket, burst, now) <= t0 <= t
    ensures Reach(x, burst, now, t) - t <= Reach(x, burst, now, t0) - t0
    ensures Owed(x, now, t) > 0.0 ==> Owed(x, now, t0) > 0.0 && Reach(x, burst, now, t) <= Reach(x, burst, now, t0)
  {
    OwedFalls(x, now, t0, t);
  }

  /** Time passing only lets reservations lapse. */
  lemma Wait(x: Shared, burst: nat, now: real, t: real)
    requires Ok(x, burst, now) && now <= t
    ensures Ok(x, burst, t)
  {
    if burst > 0 {
      forall tau: real ensures Capped(x, burst, t, tau) {
        WaitReach(x, burst, now, t, tau);
        assert Capped(x, burst, now, tau);
      }
      forall i: nat, tau: real ensures Budgeted(x, burst, t, i, tau) {
        WaitReach(x, burst, now, t, tau);
        assert Budgeted(x, burst, now, i, tau);
      }
      forall h: nat ensures InStep(x, burst, t, h) { WaitInStep(x, burst, now, t, h); }
    }
  }

  lemma WaitReach(x: Shared, burst: nat, now: real, t: real, tau: real)
    requires x.bucket.last <= now <= t
    ensures Owed(x, t, tau) <= Owed(x, now, tau) && Reach(x, burst, t, tau) <= Reach(x, burst, now, tau)
  {
    ClaimsShrink(x.held, now, tau, x.held, t, tau, x.held.Keys);
    WeightGrows(Empty(x.bucket, burst, now) - tau, Empty(x.bucket, burst, t) - tau);
  }

  lemma WaitInStep(x: Shared, burst: nat, now: real, t: real, h: nat)
    requires x.bucket.last <= now <= t && InStep(x, burst, now, h) && Capped(x, burst, now, x.bucket.lastEvent)
    ensures InStep(x, burst, t, h)
  {
    var d := x.bucket.lastEvent;
    if h in x.held && x.held[h] >= t && Empty(x.bucket, burst, t) > d {
      WeightGrows(x.held[h] - d - 1.0, x.held[h] - d - 1.0);
      ClaimsSplit(x.held, now, d, x.held.Keys, h);
      ClaimsNonNegative(x.held, now, d, x.held.Keys - {h});
    }
  }

  lemma {:induction false} ClaimsNonNegative(held: map<nat, real>, now: real, tau: real, keys: set<nat>)
    ensures Claims(held, now, tau, keys) >= 0.0
  {
    if keys != {} {
      var h :| h in keys;
      ClaimsSplit(held, now, tau, keys, h);
      ClaimsNonNegative(held, now, tau, keys - {h});
    }
  }

  lemma AllowKeeps(x: Shared, burst: nat, h: nat, t: real)
    requires Ok(x, burst, t)
    ensures Ok(DoAllow(x, burst, h, t).0, burst, t)
  {
    var (x', ok) := DoAllow(x, burst, h, t);
    if ok {
      forall tau: real | t <= tau ensures Capped(x', burst, t, tau) {
        AllowReach(x, burst, h, t, tau);
        assert Capped(x, burst, t, tau);
      }
      forall i: nat, tau: real | t <= tau ensures Budgeted(x', burst, t, i, tau) {
        AllowReach(x, burst, h, t, tau);
        assert Budgeted(x, burst, t, i, tau);
      }
      forall i: nat, j: nat ensures WithinRate(x'.admitted, burst, i, j) {
        assert WithinRate(x.admitted, burst, i, j);
        assert Budgeted(x', burst, t, i, t);
        ClaimsNonNegative(x.held, t, t, x.held.Keys);
      }
    }
  }

  /** An admission takes one token from what the bucket can come to hold, which until then is within the burst. */
  lemma AllowReach(x: Shared, burst: nat, h: nat, t: real, tau: real)
    requires Level(x.bucket, burst, t) >= 1.0 && t <= tau && x.bucket.last <= t && Capped(x, burst, t, t)
    ensures var x' := DoAllow(x, burst, h, t).0;
            && Owed(x', t, tau) == Owed(x, t, tau)
            && Reach(x', burst, t, tau) == Reach(x, burst, t, tau) - 1.0
            && Reach(x, burst, t, tau) - tau <= burst as real - t
  {
    ReachFalls(x, burst, t, t, tau);
  }

  lemma ReserveKeeps(x: Shared, burst: nat, h: nat, t: real)
    requires Ok(x, burst, t) && h !in x.held
    ensures Ok(DoReserve(x, burst, h, t), burst, t)
  {
    var x' := DoReserve(x, burst, h, t);
    if burst > 0 {
      forall tau: real | t <= tau ensures Capped(x', burst, t, tau) {
        ReserveReach(x, burst, h, t, tau);
        assert Capped(x, burst, t, tau);
      }
      forall i: nat, tau: real | t <= tau ensures Budgeted(x', burst, t, i, tau) {
        ReserveReach(x, burst, h, t, tau);
        assert Budgeted(x, burst, t, i, tau);
      }
    }
  }

  /** A reservation adds no more weight than the bucket loses. */
  lemma ReserveReach(x: Shared, burst: nat, h: nat, t: real, tau: real)
    requires burst > 0 && h !in x.held && t <= tau && x.bucket.last <= t
    ensures var x' := DoReserve(x, burst, h, t);
            && Reach(x', burst, t, tau) <= Reach(x, burst, t, tau)
            && (Owed(x', t, tau) > 0.0 ==> Owed(x, t, tau) > 0.0 || Reach(x', burst, t, tau) <= burst as real)
  {
    var x' := DoReserve(x, burst, h, t);
    var w := Empty(x.bucket, burst, t);
    ClaimsSplit(x'.held, t, tau, x'.held.Keys, h);
    assert x'.held.Keys - {h} == x.held.Keys;
    ClaimsShrink(x.held, t, tau, x'.held, t, tau, x.held.Keys);
    ClaimsShrink(x'.held, t, tau, x.held, t, tau, x.held.Keys);
    ClaimsNonNegative(x.held, t, tau, x.held.Keys);
    WeightGrows(w - tau, w - tau);
  }

  /** The bucket moves back from `w` to `w'` by at most what a reservation acting at `a` gives back when the last event
      is `d`: by convexity the weight it sheds is the reservation's. */
  lemma RestoredWeight(w: real, w': real, d: real, a: real, tau: real)
    requires w <= d && tau <= d && 0.0 <= 1.0 + a - d && w' >= w - (1.0 + a - d)
    ensures Weight(a - tau - 1.0) + Weight(w' - tau) >= Weight(w - tau)
  {
    var p := a - tau - 1.0;
    if tau <= w {
      var q := 2.0 * (w - tau - 1.0) - p;
      WeightGrows(q, w' - tau);
      assert (p + q) / 2.0 == w - tau - 1.0;
      WeightIsConvex(Min(p, q), Max(p, q));
    } else {
      WeightGrows(p, p);
      WeightGrows(w - (1.0 + a - d) - tau, w' - tau);
    }
  }

  lemma CancelOwed(x: Shared, burst: nat, h: nat, t: real, tau: real)
    requires h in x.held
    ensures Owed(DoCancel(x, burst, h, t), t, tau) <= Owed(x, t, tau) - Claim(x.held, t, tau, h)
  {
    var x' := DoCancel(x, burst, h, t);
    ClaimsSplit(x.held, t, tau, x.held.Keys, h);
    assert x'.held.Keys == x.held.Keys - {h};
    ClaimsShrink(x.held, t, tau, x'.held, t, tau, x'.held.Keys);
  }

  /** Cancelling gives the bucket no more weight than the reservation had. */
  lemma CancelReach(x: Shared, burst: nat, h: nat, t: real, tau: real)
    requires h in x.held && x.bucket.last <= t && InStep(x, burst, t, h)
    requires DoCancel(x, burst, h, t).bucket == x.bucket || tau <= x.bucket.lastEvent
    ensures var x' := DoCancel(x, burst, h, t);
            Owed(x', t, tau) <= Owed(x, t, tau) && Reach(x', burst, t, tau) <= Reach(x, burst, t, tau)
  {
    var x' := DoCancel(x, burst, h, t);
    CancelOwed(x, burst, h, t, tau);
    if x'.bucket != x.bucket {
      RestoredWeight(Empty(x.bucket, burst, t), Empty(x'.bucket, burst, t), x.bucket.lastEvent, x.held[h], tau);
    }
  }

  /** The same seen from any time, compared with the bucket before seen from no later than the last event. */
  lemma CancelSeen(x: Shared, burst: nat, h: nat, t: real, tau: real) returns (tau0: real)
    requires h in x.held && x.bucket.last <= t && InStep(x, burst, t, h)
    ensures var x' := DoCancel(x, burst, h, t);
            && From(x', t) == From(x, t) && (From(x, t) <= tau ==> From(x, t) <= tau0)
            && Reach(x', burst, t, tau) - tau <= Reach(x, burst, t, tau0) - tau0
            && (Owed(x', t, tau) > 0.0 ==>
                  Owed(x, t, tau0) > 0.0 && Reach(x', burst, t, tau) <= Reach(x, burst, t, tau0))
  {
    var x' := DoCancel(x, burst, h, t);
    tau0 := if x'.bucket == x.bucket then tau else Min(tau, x.bucket.lastEvent);
    CancelReach(x, burst, h, t, tau0);
    if tau0 < tau {
      ReachFalls(x', burst, t, tau0, tau);
    }
  }

  lemma CancelKeeps(x: Shared, burst: nat, h: nat, t: real)
    requires Ok(x, burst, t) && h in x.held
    ensures Ok(DoCancel(x, burst, h, t), burst, t)
  {
    var x' := DoCancel(x, burst, h, t);
    if burst > 0 {
      assert InStep(x, burst, t, h);
      forall tau: real ensures Capped(x', burst, t, tau) {
        var tau0 := CancelSeen(x, burst, h, t, tau);
        assert Capped(x, burst, t, tau0);
      }
      forall i: nat, tau: real ensures Budgeted(x', burst, t, i, tau) {
        var tau0 := CancelSeen(x, burst, h, t, tau);
        assert Budgeted(x, burst, t, i, tau0);
      }
      forall k: nat ensures InStep(x', burst, t, k) { assert InStep(x, burst, t, k); }
    }
  }

  /** An operation at `t` leaves a sound bucket, extends its record, and touches no other handler's reservation. */
  ghost predicate Follows(x: Shared, x': Shared, burst: nat, h: nat, t: real) {
    Ok(x', burst, t) && x.admitted <= x'.admitted && x'.held.Keys - {h} == x.held.Keys - {h}
  }

  lemma AllowFollows(x: Shared, burst: nat, h: nat, now: real, t: real)
    requires Ok(x, burst, now) && now <= t && h !in x.held
    ensures var (x', ok) := DoAllow(x, burst, h, t);
            && Follows(x, x', burst, h, t) && h !in x'.held
            && (ok ==> |x'.admitted| > 0 && x'.admitted[|x'.admitted| - 1].handler == h)
  {
    Wait(x, burst, now, t);
    AllowKeeps(x, burst, h, t);
  }

  lemma ReserveFollows(x: Shared, burst: nat, h: nat, now: real, t: real)
    requires Ok(x, burst, now) && now <= t && h !in x.held
    ensures Follows(x, DoReserve(x, burst, h, t), burst, h, t) && h in DoReserve(x, burst, h, t).held
  {
    Wait(x, burst, now, t);
    ReserveKeeps(x, burst, h, t);
  }

  lemma CancelFollows(x: Shared, burst: nat, h: nat, now: real, t: real)
    requires Ok(x, burst, now) && now <= t && h in x.held
    ensures Follows(x, DoCancel(x, burst, h, t), burst, h, t) && h !in DoCancel(x, burst, h, t).held
  {
    Wait(x, burst, now, t);
    CancelKeeps(x, burst, h, t);
  }

  // ---- The Retry-After estimate ----------------------------------------------

  /** `retryAfter`, from the delay in seconds. */
  function RetryAfter(delay: real): int {
    if delay <= 0.0 then 1
    else
      var whole := delay.Floor;
      var secs := if delay > whole as real then whole + 1 else whole;
      if secs < 1 then 1 else secs
  }

  /** The estimate is the smallest positive number of whole seconds that covers the delay. */
  lemma RetryAfterIsTight(delay: real, n: int)
    ensures RetryAfter(delay) >= 1 && RetryAfter(delay) as real >= delay
    ensures delay > 0.0 ==> (RetryAfter(delay) as real) < delay + 1.0
    ensures n >= 1 && n as real >= delay <==> n >= RetryAfter(delay)
  {
    if n >= 1 && n as real >= delay && delay > delay.Floor as real {
      assert n > delay.Floor;
    }
  }

  /** The bucket after `retryAfter` reserved at `t` and cancelled at `u`. */
  function Probed(b: Bucket, burst: nat, t: real, u: real): Bucket {
    var (b', act) := Reserve(b, burst, t);
    Cancel(b', burst, act, u)
  }

  /** `Allow` refused at `t0`; the estimate reserves at `t`, by when the bucket may have refilled. */
  ghost predicate RefusedBefore(b: Bucket, burst: nat, t0: real, t: real) {
    burst >= 1 && b.tokens <= burst as real && b.last <= t0 <= t && !Allow(b, burst, t0).1
  }

  /** Computing the estimate leaves the bucket as it was exactly when the cancel is not too late, or once what the
      reservation left has refilled to the burst. */
  lemma ProbeLeavesBucket(b: Bucket, burst: nat, t0: real, t: real, u: real, v: real)
    requires RefusedBefore(b, burst, t0, t) && t <= u <= v
    ensures var (b', act) := Reserve(b, burst, t);
            Level(Probed(b, burst, t, u), burst, v) == Level(b, burst, v) <==>
              u <= act || b'.tokens + (v - t) >= burst as real
  {
  }

  /** Exactly when a client that comes back at `v` is admitted: from the time to act on if the cancel was in time, else
      once what the reservation left has refilled to a token. */
  lemma RetryIsAdmitted(b: Bucket, burst: nat, t0: real, t: real, u: real, v: real)
    requires RefusedBefore(b, burst, t0, t) && t <= u <= v
    ensures var (b', act) := Reserve(b, burst, t);
            Allow(Probed(b, burst, t, u), burst, v).1 <==> if u <= act then v >= act else b'.tokens + (v - t) >= 1.0
  {
  }

  /** Two estimates, the second inside the first: reserved at `t` and `t1`, cancelled at `u1` and `u`. */
  function ProbedTwice(b: Bucket, burst: nat, t: real, t1: real, u1: real, u: real): Bucket {
    var (b1, act) := Reserve(b, burst, t);
    var (b2, act2) := Reserve(b1, burst, t1);
    Cancel(Cancel(b2, burst, act2, u1), burst, act, u)
  }

  /** Nested estimates of two requests, both cancelled in time, leave the level as it was exactly unless the bucket held
      more than one token and less than two when the first was made. */
  lemma NestedProbesLeaveBucket(b: Bucket, burst: nat, t: real, t1: real, u1: real, u: real, v: real)
    requires burst >= 1 && b.tokens <= burst as real && b.last <= t <= t1 <= u1 <= u <= v
    requires u <= Reserve(b, burst, t).1
    ensures Level(ProbedTwice(b, burst, t, t1, u1, u), burst, u) == Level(b, burst, u) <==>
            !(1.0 < Level(b, burst, t) < 2.0)
    ensures !(1.0 < Level(b, burst, t) < 2.0) ==>
            Level(ProbedTwice(b, burst, t, t1, u1, u), burst, v) == Level(b, burst, v)
  {
  }

  /** Retry-After over the sequence of one refused request, with no other traffic: it is refused at `t0`, reserves at
      `t`, asks for the delay at `a`, cancels at `u`, and only then is the client told a number of seconds, which are
      `rate` tokens of time each and which the client waits out. The client is admitted exactly when the cancel came no
      later than the time to act or what was left has refilled to a token; a rate of at least one token a second always
      suffices. `delay` is in seconds, and not positive if the bucket had refilled. */
  lemma RetryAfterSuffices(b: Bucket, burst: nat, rate: real, t0: real, t: real, a: real, delay: real, u: real, v: real)
    requires rate > 0.0 && RefusedBefore(b, burst, t0, t) && t <= a <= u
    requires rate * delay == Reserve(b, burst, t).1 - a && v >= u + rate * RetryAfter(delay) as real
    ensures var (b', act) := Reserve(b, burst, t);
            var admitted := Allow(Probed(b, burst, t, u), burst, v).1;
            (admitted <==> u <= act || b'.tokens + (v - t) >= 1.0) && (rate >= 1.0 ==> admitted)
  {
    Covers(rate, delay, Reserve(b, burst, t).1 - a, u, v);
    WaitSuffices(b, burst, rate, t0, t, a, u, v);
  }

  /** The wait covers what was left of the delay and at least a second. */
  lemma WaitSuffices(b: Bucket, burst: nat, rate: real, t0: real, t: real, a: real, u: real, v: real)
    requires rate > 0.0 && RefusedBefore(b, burst, t0, t) && t <= a <= u
    requires v >= u + (Reserve(b, burst, t).1 - a) && v >= u + rate
    ensures var (b', act) := Reserve(b, burst, t);
            var admitted := Allow(Probed(b, burst, t, u), burst, v).1;
            (admitted <==> u <= act || b'.tokens + (v - t) >= 1.0) && (rate >= 1.0 ==> admitted)
  {
    RetryIsAdmitted(b, burst, t0, t, u, v);
  }

  /** At any slower rate there is a run of a bucket of burst 1 in which the client waits out the one second it was told
      and is refused, although it would have been admitted had nothing been reserved. */
  lemma SlowRateCanRefuse(rate: real)
    requires 0.0 < rate < 1.0
    ensures var b, u := Bucket(0.5, 0.0, 0.0), 1.0 - rate / 2.0;
            && RefusedBefore(b, 1, 0.0, 0.5) && Reserve(b, 1, 0.5).1 == 0.5 < u && RetryAfter(0.0) == 1
            && !Allow(Probed(b, 1, 0.5, u), 1, u + rate).1
            && Allow(b, 1, u + rate).1
  {
  }

  /** A bucket that refills between the refusal and the reservation: half a token a second, refused at 0.2 tokens of
      time, reserved at 0.3 and acting at once, cancelled at 0.31. The client told one second comes back at 0.81. */
  lemma RefilledProbeSpendsTheToken()
    ensures var b := Bucket(0.75, 0.0, 0.0);
            && RefusedBefore(b, 1, 0.2, 0.3)
            && Reserve(b, 1, 0.3).1 == 0.3 && RetryAfter(0.0) == 1
            && !Allow(Probed(b, 1, 0.3, 0.31), 1, 0.31 + 0.5).1
            && Allow(b, 1, 0.31 + 0.5).1
  {
  }

  lemma Covers(rate: real, delay: real, wait: real, u: real, v: real)
    requires rate > 0.0 && rate * delay == wait && v >= u + rate * RetryAfter(delay) as real
    ensures v >= u + wait && v >= u + rate
  {
    RetryAfterIsTight(delay, 1);
    Scale(rate, delay, RetryAfter(delay) as real);
    Scale(rate, 1.0, RetryAfter(delay) as real);
  }

  lemma Scale(rate: real, x: real, y: real)
    requires rate > 0.0 && x <= y
    ensures rate * x <= rate * y
  {
  }

  /** A cancel after the time to act costs the client the token it waited for. */
  lemma LateCancelRefusesTheRetry()
    ensures var b := Bucket(0.5, 0.0, 0.0);
            && Reserve(b, 1, 0.0).1 == 0.5
            && !Allow(Probed(b, 1, 0.0, 0.75), 1, 1.0).1
            && Allow(b, 1, 1.0).1
  {
  }
}
