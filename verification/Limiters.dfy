/** The per-provider limiter map and its concurrent handlers (internal/httpx/ratelimit.go). */
module Limiters {
  import opened Basics
  import opened TokenBucket

  const WEBHOOK_PREFIX := "/webhook/"

  function UpToSlash(s: string): (r: string)
    ensures '/' !in r
    ensures r <= s && (|r| < |s| ==> s[|r|] == '/')
  {
    if s == "" || s[0] == '/' then "" else [s[0]] + UpToSlash(s[1..])
  }

  /** `providerFromPath`; a request with no provider bypasses the limiter. */
  function ProviderFromPath(path: string): string {
    if WEBHOOK_PREFIX <= path then UpToSlash(path[|WEBHOOK_PREFIX|..]) else ""
  }

  /** A path is charged to exactly the segment after the prefix, whatever follows it. */
  lemma PathChargesOneSegment(path: string, p: string)
    requires p != ""
    ensures ProviderFromPath(path) == p <==>
            '/' !in p && (path == "/webhook/" + p || "/webhook/" + p + "/" <= path)
  {
    if WEBHOOK_PREFIX <= path {
      var rest := path[|WEBHOOK_PREFIX|..];
      var q := UpToSlash(rest);
      assert path == WEBHOOK_PREFIX + rest;
      if '/' !in p && (path == WEBHOOK_PREFIX + p || WEBHOOK_PREFIX + p + "/" <= path) {
        assert rest == p || p + "/" <= rest;
        SegmentsAgree(rest, p, q);
      }
      if q == p {
        if |q| < |rest| {
          assert WEBHOOK_PREFIX + p + "/" <= path;
        } else {
          assert rest == p;
        }
      }
    }
  }

  lemma SegmentsAgree(rest: string, p: string, q: string)
    requires '/' !in p && '/' !in q && p <= rest && q <= rest
    requires (|p| < |rest| ==> rest[|p|] == '/') && (|q| < |rest| ==> rest[|q|] == '/')
    ensures p == q
  {
  }

  /** A handler of one request: it loads its provider's limiter, or makes one and races to store it,
      asks for a token, and on refusal reserves and cancels to estimate the wait. */
  datatype Handler =
    | Started(provider: string)
    | Missed(provider: string)
    | Holding(provider: string, lim: nat)
    | Refused(provider: string, lim: nat)
    | Reserved(provider: string, lim: nat)
    | Admitted(provider: string)
    | Rejected(provider: string)

  /** `store` is the sync.Map; `pool` holds every limiter ever made, those that lost the race included. */
  datatype Sys = Sys(now: real, store: map<string, nat>, pool: seq<Shared>, handlers: seq<Handler>)

  datatype Step =
    | Arrive(provider: string)
    | Load(h: nat)
    | LoadOrStore(h: nat)
    | TryAllow(h: nat, dt: real)
    | TryReserve(h: nat, dt: real)
    | GiveBack(h: nat, dt: real)

  function WithHandler(s: Sys, h: nat, x: Handler): Sys
    requires h < |s.handlers|
  {
    s.(handlers := s.handlers[h := x])
  }

  function DoLoad(s: Sys, h: nat): Sys
    requires h < |s.handlers|
  {
    var p := s.handlers[h].provider;
    WithHandler(s, h, if p in s.store then Holding(p, s.store[p]) else Missed(p))
  }

  function DoLoadOrStore(s: Sys, burst: nat, h: nat): Sys
    requires h < |s.handlers|
  {
    var p, mine := s.handlers[h].provider, |s.pool|;
    var s' := s.(pool := s.pool + [Fresh(burst, s.now)]);
    if p in s.store then WithHandler(s', h, Holding(p, s.store[p]))
    else WithHandler(s'.(store := s.store[p := mine]), h, Holding(p, mine))
  }

  function OnBucket(s: Sys, h: nat, lim: nat, now: real, x: Shared, state: Handler): Sys
    requires h < |s.handlers| && lim < |s.pool|
  {
    s.(now := now, pool := s.pool[lim := x], handlers := s.handlers[h := state])
  }

  function Do(s: Sys, burst: nat, step: Step): Sys {
    match step
    case Arrive(p) => s.(handlers := s.handlers + [Started(p)])
    case Load(h) => if h < |s.handlers| && s.handlers[h].Started? then DoLoad(s, h) else s
    case LoadOrStore(h) => if h < |s.handlers| && s.handlers[h].Missed? then DoLoadOrStore(s, burst, h) else s
    case TryAllow(h, dt) =>
      if h < |s.handlers| && s.handlers[h].Holding? && s.handlers[h].lim < |s.pool| && dt >= 0.0 then
        var Holding(p, lim) := s.handlers[h];
        var (x, ok) := DoAllow(s.pool[lim], burst, h, s.now + dt);
        OnBucket(s, h, lim, s.now + dt, x, if ok then Admitted(p) else Refused(p, lim))
      else s
    case TryReserve(h, dt) =>
      if h < |s.handlers| && s.handlers[h].Refused? && s.handlers[h].lim < |s.pool| && dt >= 0.0 then
        var Refused(p, lim) := s.handlers[h];
        OnBucket(s, h, lim, s.now + dt, DoReserve(s.pool[lim], burst, h, s.now + dt), Reserved(p, lim))
      else s
    case GiveBack(h, dt) =>
      if h < |s.handlers| && s.handlers[h].Reserved? && s.handlers[h].lim < |s.pool| && dt >= 0.0
         && h in s.pool[s.handlers[h].lim].held then
        var Reserved(p, lim) := s.handlers[h];
        OnBucket(s, h, lim, s.now + dt, DoCancel(s.pool[lim], burst, h, s.now + dt), Rejected(p))
      else s
  }

  function Exec(burst: nat, steps: seq<Step>): Sys {
    if steps == [] then Sys(0.0, map[], [], []) else Do(Exec(burst, steps[..|steps| - 1]), burst, steps[|steps| - 1])
  }

  // ---- The invariant -----------------------------------------------------------

  /** The limiter a handler works with. */
  predicate Uses(x: Handler, lim: nat) {
    (x.Holding? || x.Refused? || x.Reserved?) && x.lim == lim
  }

  /** The map never sends two providers to one limiter, and a handler has its provider's limiter. */
  ghost predicate Shares(s: Sys) {
    && (forall p <- s.store :: s.store[p] < |s.pool|)
    && (forall p, q | p in s.store && q in s.store && s.store[p] == s.store[q] :: p == q)
    && (forall h | 0 <= h < |s.handlers| :: Served(s.store, s.handlers[h]))
  }

  ghost predicate Served(store: map<string, nat>, x: Handler) {
    && (x.Holding? || x.Refused? || x.Reserved? ==> x.provider in store && store[x.provider] == x.lim)
    && (x.Admitted? || x.Rejected? ==> x.provider in store)
  }

  /** The reservations a limiter's bucket holds are those of the handlers that have reserved there. */
  ghost predicate Accounted(s: Sys) {
    forall lim | 0 <= lim < |s.pool| :: Owners(s.handlers, lim, s.pool[lim].held)
  }

  ghost predicate Owners(handlers: seq<Handler>, lim: nat, held: map<nat, real>) {
    forall h: nat :: h in held <==> h < |handlers| && handlers[h].Reserved? && handlers[h].lim == lim
  }

  /** Every admitted handler is on its provider's limiter's record. */
  ghost predicate Recorded(s: Sys, h: nat)
    requires h < |s.handlers| && s.handlers[h].Admitted?
  {
    && s.handlers[h].provider in s.store && s.store[s.handlers[h].provider] < |s.pool|
    && exists i :: 0 <= i < |s.pool[s.store[s.handlers[h].provider]].admitted|
                && s.pool[s.store[s.handlers[h].provider]].admitted[i].handler == h
  }

  ghost predicate Inv(s: Sys, burst: nat) {
    && Shares(s)
    && Accounted(s)
    && (forall lim | 0 <= lim < |s.pool| :: Ok(s.pool[lim], burst, s.now))
    && (forall h | 0 <= h < |s.handlers| && s.handlers[h].Admitted? :: Recorded(s, h))
  }

  lemma RecordedStays(s: Sys, s': Sys, h: nat)
    requires h < |s.handlers| && s.handlers[h].Admitted? && Recorded(s, h)
    requires h < |s'.handlers| && s'.handlers[h] == s.handlers[h]
    requires |s.pool| <= |s'.pool| && forall lim | 0 <= lim < |s.pool| :: s.pool[lim].admitted <= s'.pool[lim].admitted
    requires forall p <- s.store :: p in s'.store && s'.store[p] == s.store[p]
    ensures Recorded(s', h)
  {
    var lim := s.store[s.handlers[h].provider];
    var i :| 0 <= i < |s.pool[lim].admitted| && s.pool[lim].admitted[i].handler == h;
    assert s'.pool[lim].admitted[i] == s.pool[lim].admitted[i];
  }

  lemma LoadKeeps(s: Sys, burst: nat, h: nat)
    requires Inv(s, burst) && h < |s.handlers| && s.handlers[h].Started?
    ensures Inv(DoLoad(s, h), burst)
  {
    var s' := DoLoad(s, h);
    assert forall lim | 0 <= lim < |s.pool| :: Owners(s.handlers, lim, s.pool[lim].held);
    forall k | 0 <= k < |s'.handlers| && s'.handlers[k].Admitted? ensures Recorded(s', k) {
      RecordedStays(s, s', k);
    }
  }

  lemma NobodyUsesFresh(s: Sys)
    requires Shares(s)
    ensures forall h | 0 <= h < |s.handlers| && s.handlers[h].Reserved? :: s.handlers[h].lim < |s.pool|
  {
    forall h | 0 <= h < |s.handlers| && s.handlers[h].Reserved? ensures s.handlers[h].lim < |s.pool| {
      assert Served(s.store, s.handlers[h]);
    }
  }

  lemma LoadOrStoreShares(s: Sys, burst: nat, h: nat, s': Sys)
    requires Shares(s) && h < |s.handlers| && s.handlers[h].Missed? && s' == DoLoadOrStore(s, burst, h)
    ensures Shares(s')
  {
    assert forall k | 0 <= k < |s.handlers| :: Served(s.store, s.handlers[k]);
  }

  lemma LoadOrStoreAccounts(s: Sys, burst: nat, h: nat, s': Sys)
    requires Shares(s) && Accounted(s) && h < |s.handlers| && s.handlers[h].Missed? && s' == DoLoadOrStore(s, burst, h)
    ensures Accounted(s')
  {
    forall lim | 0 <= lim < |s'.pool| ensures Owners(s'.handlers, lim, s'.pool[lim].held) {
      if lim < |s.pool| {
        assert Owners(s.handlers, lim, s.pool[lim].held);
      } else {
        NobodyUsesFresh(s);
      }
    }
  }

  lemma LoadOrStoreKeeps(s: Sys, burst: nat, h: nat, s': Sys)
    requires Inv(s, burst) && h < |s.handlers| && s.handlers[h].Missed? && s' == DoLoadOrStore(s, burst, h)
    ensures Inv(s', burst)
  {
    LoadOrStoreShares(s, burst, h, s');
    LoadOrStoreAccounts(s, burst, h, s');
    FreshIsOk(burst, s.now);
    forall k | 0 <= k < |s'.handlers| && s'.handlers[k].Admitted? ensures Recorded(s', k) {
      RecordedStays(s, s', k);
    }
  }

  /** What an operation on one bucket must keep for the whole system to keep its invariant. */
  lemma BucketStepKeeps(s: Sys, burst: nat, h: nat, lim: nat, now: real, x: Shared, state: Handler, s': Sys)
    requires Inv(s, burst) && h < |s.handlers| && lim < |s.pool| && s.now <= now
    requires Uses(s.handlers[h], lim) && state.provider == s.handlers[h].provider
    requires (Uses(state, lim) || state.Admitted? || state.Rejected?) && !state.Holding?
    requires Follows(s.pool[lim], x, burst, h, now) && (h in x.held <==> state.Reserved?)
    requires state.Admitted? ==> |x.admitted| > 0 && x.admitted[|x.admitted| - 1].handler == h
    requires s' == OnBucket(s, h, lim, now, x, state)
    ensures Inv(s', burst)
  {
    forall k | 0 <= k < |s'.pool| ensures Ok(s'.pool[k], burst, now) {
      if k != lim {
        Wait(s.pool[k], burst, s.now, now);
      }
    }
    forall k | 0 <= k < |s'.handlers| && s'.handlers[k].Admitted? ensures Recorded(s', k) {
      if k != h {
        RecordedStays(s, s', k);
      }
    }
    AccountedAfter(s, h, lim, now, x, state);
  }

  lemma AccountedAfter(s: Sys, h: nat, lim: nat, now: real, x: Shared, state: Handler)
    requires Accounted(s) && h < |s.handlers| && lim < |s.pool| && Uses(s.handlers[h], lim)
    requires state.Reserved? ==> state.lim == lim
    requires x.held.Keys - {h} == s.pool[lim].held.Keys - {h} && (h in x.held <==> state.Reserved?)
    ensures Accounted(OnBucket(s, h, lim, now, x, state))
  {
    var s' := OnBucket(s, h, lim, now, x, state);
    forall l | 0 <= l < |s'.pool| ensures Owners(s'.handlers, l, s'.pool[l].held) {
      assert Owners(s.handlers, l, s.pool[l].held);
      forall k: nat
        ensures k in s'.pool[l].held <==> k < |s'.handlers| && s'.handlers[k].Reserved? && s'.handlers[k].lim == l
      {
        if l == lim && k != h {
          assert k in x.held.Keys - {h} <==> k in s.pool[lim].held.Keys - {h};
        }
      }
    }
  }

  lemma ArriveKeeps(s: Sys, burst: nat, step: Step, s': Sys)
    requires Inv(s, burst) && step.Arrive? && s' == Do(s, burst, step)
    ensures Inv(s', burst)
  {
    assert forall lim | 0 <= lim < |s.pool| :: Owners(s.handlers, lim, s.pool[lim].held);
    forall k | 0 <= k < |s'.handlers| && s'.handlers[k].Admitted? ensures Recorded(s', k) {
      RecordedStays(s, s', k);
    }
  }

  /** What the invariant says about one handler's bucket. */
  lemma BucketOf(s: Sys, burst: nat, h: nat, lim: nat)
    requires Inv(s, burst) && h < |s.handlers| && lim < |s.pool| && Uses(s.handlers[h], lim)
    ensures Ok(s.pool[lim], burst, s.now)
    ensures h in s.pool[lim].held <==> s.handlers[h].Reserved?
  {
    assert Owners(s.handlers, lim, s.pool[lim].held);
  }

  lemma AllowStepKeeps(s: Sys, burst: nat, step: Step, s': Sys)
    requires Inv(s, burst) && step.TryAllow? && s' == Do(s, burst, step) && s' != s
    ensures Inv(s', burst)
  {
    var TryAllow(h, dt) := step;
    var Holding(p, lim) := s.handlers[h];
    BucketOf(s, burst, h, lim);
    AllowFollows(s.pool[lim], burst, h, s.now, s.now + dt);
    var (x, ok) := DoAllow(s.pool[lim], burst, h, s.now + dt);
    BucketStepKeeps(s, burst, h, lim, s.now + dt, x, if ok then Admitted(p) else Refused(p, lim), s');
  }

  lemma ReserveStepKeeps(s: Sys, burst: nat, step: Step, s': Sys)
    requires Inv(s, burst) && step.TryReserve? && s' == Do(s, burst, step) && s' != s
    ensures Inv(s', burst)
  {
    var TryReserve(h, dt) := step;
    var Refused(p, lim) := s.handlers[h];
    BucketOf(s, burst, h, lim);
    ReserveFollows(s.pool[lim], burst, h, s.now, s.now + dt);
    BucketStepKeeps(s, burst, h, lim, s.now + dt, DoReserve(s.pool[lim], burst, h, s.now + dt), Reserved(p, lim), s');
  }

  lemma GiveBackStepKeeps(s: Sys, burst: nat, step: Step, s': Sys)
    requires Inv(s, burst) && step.GiveBack? && s' == Do(s, burst, step) && s' != s
    ensures Inv(s', burst)
  {
    var GiveBack(h, dt) := step;
    var Reserved(p, lim) := s.handlers[h];
    BucketOf(s, burst, h, lim);
    CancelFollows(s.pool[lim], burst, h, s.now, s.now + dt);
    BucketStepKeeps(s, burst, h, lim, s.now + dt, DoCancel(s.pool[lim], burst, h, s.now + dt), Rejected(p), s');
  }

  lemma StepKeeps(s: Sys, burst: nat, step: Step, s': Sys)
    requires Inv(s, burst) && s' == Do(s, burst, step)
    ensures Inv(s', burst)
  {
    if s' != s {
      match step
      case Arrive(_) => ArriveKeeps(s, burst, step, s');
      case Load(h) => LoadKeeps(s, burst, h);
      case LoadOrStore(h) => LoadOrStoreKeeps(s, burst, h, s');
      case TryAllow(_, _) => AllowStepKeeps(s, burst, step, s');
      case TryReserve(_, _) => ReserveStepKeeps(s, burst, step, s');
      case GiveBack(_, _) => GiveBackStepKeeps(s, burst, step, s');
    }
  }

  lemma {:induction false} Always(burst: nat, steps: seq<Step>)
    ensures Inv(Exec(burst, steps), burst)
  {
    if steps != [] {
      Always(burst, steps[..|steps| - 1]);
      StepKeeps(Exec(burst, steps[..|steps| - 1]), burst, steps[|steps| - 1], Exec(burst, steps));
    }
  }

  // ---- Theorems ------------------------------------------------------------------

  /** In every interleaving, racing first requests included, two handlers share a limiter exactly when they serve the
      same provider. */
  lemma OneLimiterPerProvider(burst: nat, steps: seq<Step>, g: nat, h: nat, a: nat, b: nat)
    requires g < |Exec(burst, steps).handlers| && h < |Exec(burst, steps).handlers|
    requires Uses(Exec(burst, steps).handlers[g], a) && Uses(Exec(burst, steps).handlers[h], b)
    ensures Exec(burst, steps).handlers[g].provider == Exec(burst, steps).handlers[h].provider <==> a == b
  {
    Always(burst, steps);
  }

  /** The rate bound under concurrency: every admitted request for a provider is on one record, and any stretch of that
      record spanning at most `seconds` holds at most burst + rate * seconds admissions, the temporary reservations of
      refused requests included. */
  lemma RateBound(burst: nat, rate: real, steps: seq<Step>, p: string, h: nat, i: nat, j: nat, seconds: real)
    requires p in Exec(burst, steps).store
    ensures var s := Exec(burst, steps);
            && s.store[p] < |s.pool|
            && var record := s.pool[s.store[p]].admitted;
               && (h < |s.handlers| && s.handlers[h] == Admitted(p) ==>
                     exists n :: 0 <= n < |record| && record[n].handler == h)
               && (i <= j < |record| && record[j].at - record[i].at <= rate * seconds ==>
                     (j - i + 1) as real <= burst as real + rate * seconds)
  {
    Always(burst, steps);
    var s := Exec(burst, steps);
    assert Ok(s.pool[s.store[p]], burst, s.now);
    assert WithinRate(s.pool[s.store[p]].admitted, burst, i, j);
    assert h < |s.handlers| && s.handlers[h] == Admitted(p) ==> Recorded(s, h);
  }

  // ---- The burst is there from the start -------------------------------------------

  predicate TurnedAway(x: Handler) { x.Refused? || x.Reserved? || x.Rejected? }

  /** Until `burst` requests are admitted the bucket holds what is left of the burst. */
  ghost predicate Stocked(x: Shared, burst: nat, now: real) {
    |x.admitted| < burst ==> Level(x.bucket, burst, now) >= (burst - |x.admitted|) as real
  }

  /** Nobody is turned away before `burst` requests of the provider are admitted. */
  ghost predicate Generous(s: Sys, burst: nat, p: string) {
    p in s.store && s.store[p] < |s.pool| && |s.pool[s.store[p]].admitted| < burst ==>
      && Stocked(s.pool[s.store[p]], burst, s.now)
      && forall h | 0 <= h < |s.handlers| && s.handlers[h].provider == p :: !TurnedAway(s.handlers[h])
  }

  lemma FreshIsStocked(burst: nat, now: real)
    ensures Stocked(Fresh(burst, now), burst, now)
  {
  }

  lemma WaitStocks(x: Shared, burst: nat, now: real, t: real)
    requires x.bucket.last <= now <= t && x.bucket.tokens <= burst as real && Stocked(x, burst, now)
    ensures Stocked(x, burst, t)
  {
  }

  lemma AllowStocks(x: Shared, burst: nat, h: nat, t: real)
    requires Stocked(x, burst, t)
    ensures var (x', ok) := DoAllow(x, burst, h, t); Stocked(x', burst, t) && (!ok ==> |x'.admitted| >= burst)
  {
  }

  /** What a step on one bucket must do for its provider; every other provider only waits. */
  lemma BucketStepGenerous(s: Sys, burst: nat, h: nat, lim: nat, now: real, x: Shared, state: Handler, s': Sys,
                           p: string)
    requires Inv(s, burst) && h < |s.handlers| && lim < |s.pool| && s.now <= now && Generous(s, burst, p)
    requires Uses(s.handlers[h], lim) && state.provider == s.handlers[h].provider
    requires s' == OnBucket(s, h, lim, now, x, state)
    requires |s.pool[lim].admitted| <= |x.admitted|
    requires |x.admitted| < burst && !TurnedAway(s.handlers[h]) && Stocked(s.pool[lim], burst, s.now) ==>
               Stocked(x, burst, now) && !TurnedAway(state)
    ensures Generous(s', burst, p)
  {
    if p in s.store && s.store[p] < |s.pool| && |s'.pool[s.store[p]].admitted| < burst {
      assert Served(s.store, s.handlers[h]);
      if s.store[p] != lim {
        assert Ok(s.pool[s.store[p]], burst, s.now);
        WaitStocks(s.pool[s.store[p]], burst, s.now, now);
      }
    }
  }

  lemma AllowStepGenerous(s: Sys, burst: nat, step: Step, s': Sys, p: string)
    requires Inv(s, burst) && Generous(s, burst, p) && step.TryAllow? && s' == Do(s, burst, step) && s' != s
    ensures Generous(s', burst, p)
  {
    var TryAllow(h, dt) := step;
    var lim := s.handlers[h].lim;
    BucketOf(s, burst, h, lim);
    if Stocked(s.pool[lim], burst, s.now) {
      WaitStocks(s.pool[lim], burst, s.now, s.now + dt);
      AllowStocks(s.pool[lim], burst, h, s.now + dt);
    }
    BucketStepGenerous(s, burst, h, lim, s.now + dt, s'.pool[lim], s'.handlers[h], s', p);
  }

  lemma ProbeStepGenerous(s: Sys, burst: nat, step: Step, s': Sys, p: string)
    requires Inv(s, burst) && Generous(s, burst, p) && (step.TryReserve? || step.GiveBack?)
    requires s' == Do(s, burst, step) && s' != s
    ensures Generous(s', burst, p)
  {
    var lim := s.handlers[step.h].lim;
    BucketStepGenerous(s, burst, step.h, lim, s.now + step.dt, s'.pool[lim], s'.handlers[step.h], s', p);
  }

  lemma MapStepGenerous(s: Sys, burst: nat, step: Step, s': Sys, p: string)
    requires Inv(s, burst) && Generous(s, burst, p) && (step.Arrive? || step.Load? || step.LoadOrStore?)
    requires s' == Do(s, burst, step) && s' != s
    ensures Generous(s', burst, p)
  {
    if step.LoadOrStore? {
      FreshIsStocked(burst, s.now);
      assert forall k | 0 <= k < |s.handlers| :: Served(s.store, s.handlers[k]);
    }
  }

  lemma StepGenerous(s: Sys, burst: nat, step: Step, s': Sys, p: string)
    requires Inv(s, burst) && Generous(s, burst, p) && s' == Do(s, burst, step)
    ensures Generous(s', burst, p)
  {
    if s' != s {
      match step
      case Arrive(_) | Load(_) | LoadOrStore(_) => MapStepGenerous(s, burst, step, s', p);
      case TryAllow(_, _) => AllowStepGenerous(s, burst, step, s', p);
      case TryReserve(_, _) | GiveBack(_, _) => ProbeStepGenerous(s, burst, step, s', p);
    }
  }

  lemma {:induction false} AlwaysGenerous(burst: nat, steps: seq<Step>, p: string)
    ensures Generous(Exec(burst, steps), burst, p)
  {
    if steps != [] {
      var front := steps[..|steps| - 1];
      AlwaysGenerous(burst, front, p);
      Always(burst, front);
      StepGenerous(Exec(burst, front), burst, steps[|steps| - 1], Exec(burst, steps), p);
    }
  }

  /** In every run, a request is turned away only after `burst` requests for its provider have been admitted. */
  lemma BurstIsAdmittedFirst(burst: nat, steps: seq<Step>, h: nat)
    requires h < |Exec(burst, steps).handlers| && TurnedAway(Exec(burst, steps).handlers[h])
    ensures var s := Exec(burst, steps);
            && s.handlers[h].provider in s.store && s.store[s.handlers[h].provider] < |s.pool|
            && |s.pool[s.store[s.handlers[h].provider]].admitted| >= burst
  {
    Always(burst, steps);
    assert Served(Exec(burst, steps).store, Exec(burst, steps).handlers[h]);
    AlwaysGenerous(burst, steps, Exec(burst, steps).handlers[h].provider);
  }
}
