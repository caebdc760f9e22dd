/** The domain counters in every reachable state
    (internal/webhook/jsm/provider.go, internal/webhook/executor.go, internal/webhook/dispatcher.go). */
module Counters {
  import opened Basics
  import opened Protocol
  import opened Results
  import Answers
  import Cluster
  import Executor
  import Safety
  import Waits

  // ---- Each counter by itself -----------------------------------------------------

  /** What the request is, or was, answered with. */
  function ResultOf(r: Req): Option<ExecResult> {
    match r.pc
    case Finished(res) => Some(res)
    case Answered(_, body) => body
    case _ => None
  }

  predicate Unacted(r: Req) { r.act.None? && ResultOf(r).Some? }

  function IsNoop(r: Req): nat { if Unacted(r) && ResultOf(r).value.kind == Noop then 1 else 0 }
  function IsParseError(r: Req): nat { if Unacted(r) && ResultOf(r).value.kind != Noop then 1 else 0 }
  function IsApplyError(r: Req): nat { if r.refused.Some? && ResultOf(r).Some? then 1 else 0 }

  /** The request has reached its wait. */
  predicate Waited(r: Req) { Waits.InWait(r.pc) || r.waited.Some? }

  function IsCreated(r: Req): nat { if Waited(r) && r.gen == 1 then 1 else 0 }
  function IsUpdated(r: Req): nat { if Waited(r) && r.gen > 1 then 1 else 0 }
  function IsSynced(r: Req): nat { if r.waited.Some? && !r.pc.Synced? then 1 else 0 }
  function IsResponse(r: Req): nat { if r.pc.Answered? && r.pc.body.Some? then 1 else 0 }

  predicate Positive(r: Req) { Waited(r) ==> r.gen >= 1 }

  ghost predicate Tallied(s: Sys) {
    && (forall r <- s.reqs :: Positive(r))
    && s.m.noops == Total(IsNoop, s.reqs)
    && s.m.parseErrors == Total(IsParseError, s.reqs)
    && s.m.applyErrors == Total(IsApplyError, s.reqs)
    && s.m.applyCreated == Total(IsCreated, s.reqs)
    && s.m.applyUpdated == Total(IsUpdated, s.reqs)
    && s.m.syncs == Total(IsSynced, s.reqs)
    && s.m.responses == Total(IsResponse, s.reqs)
  }

  /** What a move adds to each counter is what it changes in its request. */
  ghost predicate Counts(m: Metrics, r: Req, m': Metrics, r': Req) {
    && m'.noops + IsNoop(r) == m.noops + IsNoop(r')
    && m'.parseErrors + IsParseError(r) == m.parseErrors + IsParseError(r')
    && m'.applyErrors + IsApplyError(r) == m.applyErrors + IsApplyError(r')
    && m'.applyCreated + IsCreated(r) == m.applyCreated + IsCreated(r')
    && m'.applyUpdated + IsUpdated(r) == m.applyUpdated + IsUpdated(r')
    && m'.syncs + IsSynced(r) == m.syncs + IsSynced(r')
    && m'.responses + IsResponse(r) == m.responses + IsResponse(r')
    && (Positive(r) ==> Positive(r'))
  }

  ghost predicate Known(c: Config, s: Sys, r: Req) {
    && Safety.ReqOk(c, s.log, r) && Answers.Traced(c, r) && Waits.WaitOk(s.log, r)
    && (r.pc.Applied? ==> r.gen >= 1)
  }

  /** A fetched generation is never 0, so the "error" label counts failed applies only. */
  lemma FetchedGenerationIsPositive(c: Config, s: Sys, rid: nat)
    requires Safety.Inv(c, s) && rid < |s.reqs| && s.reqs[rid].pc.Applied?
    ensures s.reqs[rid].gen >= 1
  {
    assert Safety.ReqOk(c, s.log, s.reqs[rid]);
  }

  lemma DecideCounts(c: Config, s: Sys, r: Req)
    requires Known(c, s, r) && r.pc.Verified?
    ensures var e := DoDecide(c, s, r); Counts(s.m, r, e.m, e.req)
  {
  }

  lemma RespondCounts(c: Config, s: Sys, rid: nat)
    requires rid < |s.reqs|
    ensures var e := DoMove(c, s, rid, Respond); Counts(s.m, s.reqs[rid], e.m, e.req)
  {
  }

  lemma DispatcherMoveCounts(c: Config, s: Sys, rid: nat, move: Move)
    requires rid < |s.reqs| && Known(c, s, s.reqs[rid])
    requires move.Admit? || move.Decide? || move.Respond? || move.Cancel? || s.reqs[rid].act.None?
    ensures var e := DoMove(c, s, rid, move); Counts(s.m, s.reqs[rid], e.m, e.req)
  {
    if move.Respond? {
      RespondCounts(c, s, rid);
    } else if move.Decide? && s.reqs[rid].pc.Verified? {
      DecideCounts(c, s, s.reqs[rid]);
    }
  }

  lemma ObserveApplyCounts(c: Config, s: Sys, r: Req)
    requires r.act.Some? && Known(c, s, r) && (r.pc.ApplyFailed? || r.pc.Applied?)
    ensures var e := DoObserveApply(c, s, r); Counts(s.m, r, e.m, e.req)
  {
  }

  lemma ObserveSyncCounts(c: Config, s: Sys, rid: nat, r: Req)
    requires r.act.Some? && Known(c, s, r)
    ensures var e := DoExecute(c, s, rid, r, ObserveSync); Counts(s.m, r, e.m, e.req)
  {
  }

  /** Before its wait a request with an action counts nowhere. */
  predicate Early(r: Req) {
    r.act.Some? && r.waited.None? && (r.pc.Applying? || r.pc.PatchReturned? || r.pc.ApplyFailed? || r.pc.Applied?)
  }

  lemma PatchIsEarly(s: Sys, rid: nat, r: Req, d: Cluster.Desired, reply: PatchReply)
    requires r.act.Some? && r.waited.None? && r.pc.Applying?
    ensures var e := DoPatch(s, rid, r, d, reply); e.m == s.m && Early(e.req)
  {
  }

  lemma RefetchIsEarly(s: Sys, r: Req, err: Option<Executor.K8sErr>)
    requires r.act.Some? && r.waited.None? && r.pc.PatchReturned?
    ensures var e := DoRefetch(s, r, err); e.m == s.m && Early(e.req)
  {
  }

  lemma EarlyCounts(m: Metrics, r: Req, r': Req)
    requires r' == r || (Early(r) && Early(r'))
    ensures Counts(m, r, m, r')
  {
  }

  lemma ApplyMoveCounts(c: Config, s: Sys, rid: nat, r: Req, move: Move, e: Effect)
    requires r.act.Some? && Known(c, s, r) && (move.Patch? || move.Refetch?) && e == DoExecute(c, s, rid, r, move)
    ensures Counts(s.m, r, e.m, e.req)
  {
    if move.Patch? && r.pc.Applying? {
      PatchIsEarly(s, rid, r, Executor.Prepared(r.act.value, move.stamp), move.reply);
    } else if move.Refetch? && r.pc.PatchReturned? {
      RefetchIsEarly(s, r, move.err);
    }
    EarlyCounts(s.m, r, e.req);
  }

  /** In its wait it counts as an apply only. */
  predicate Midway(r: Req) {
    r.act.Some? && r.refused.None? && ((Waits.InWait(r.pc) && r.waited.None?) || (r.pc.Synced? && r.waited.Some?))
  }

  lemma OpeningIsMidway(c: Config, s: Sys, rid: nat, r: Req, move: Move)
    requires r.act.Some? && Known(c, s, r) && (move.InitialGet? || move.OpenWatch?)
    ensures var e := DoExecute(c, s, rid, r, move);
            e.m == s.m && (e.req == r || (Midway(r) && Midway(e.req) && e.req.gen == r.gen))
  {
  }

  lemma SelectIsMidway(c: Config, s: Sys, rid: nat, r: Req, move: Move)
    requires r.act.Some? && Known(c, s, r) && (move.Deliver? || move.Stray? || move.CloseWatch? || move.CtxDone?)
    ensures var e := DoExecute(c, s, rid, r, move);
            e.m == s.m && (e.req == r || (Midway(r) && Midway(e.req) && e.req.gen == r.gen))
  {
  }

  lemma MidwayCounts(m: Metrics, r: Req, r': Req)
    requires r' == r || (Midway(r) && Midway(r') && r'.gen == r.gen)
    ensures Counts(m, r, m, r')
  {
  }

  lemma WaitMoveCounts(c: Config, s: Sys, rid: nat, r: Req, move: Move, e: Effect)
    requires r.act.Some? && Known(c, s, r) && e == DoExecute(c, s, rid, r, move)
    requires move.InitialGet? || move.OpenWatch? || move.Deliver? || move.Stray? || move.CloseWatch? || move.CtxDone?
    ensures Counts(s.m, r, e.m, e.req)
  {
    if move.InitialGet? || move.OpenWatch? {
      OpeningIsMidway(c, s, rid, r, move);
    } else {
      SelectIsMidway(c, s, rid, r, move);
    }
    MidwayCounts(s.m, r, e.req);
  }

  lemma MoveCounts(c: Config, s: Sys, rid: nat, move: Move, e: Effect)
    requires rid < |s.reqs| && Known(c, s, s.reqs[rid]) && e == DoMove(c, s, rid, move)
    ensures Counts(s.m, s.reqs[rid], e.m, e.req)
  {
    var r := s.reqs[rid];
    if move.Admit? || move.Decide? || move.Respond? || move.Cancel? || r.act.None? {
      DispatcherMoveCounts(c, s, rid, move);
    } else if move.ObserveApply? {
      if r.pc.ApplyFailed? || r.pc.Applied? {
        ObserveApplyCounts(c, s, r);
      } else {
        EarlyCounts(s.m, r, r);
      }
    } else if move.ObserveSync? {
      ObserveSyncCounts(c, s, rid, r);
    } else if move.Patch? || move.Refetch? {
      ApplyMoveCounts(c, s, rid, r, move, e);
    } else {
      WaitMoveCounts(c, s, rid, r, move, e);
    }
  }

  lemma TallyUpdate(s: Sys, rid: nat, e: Effect, s': Sys)
    requires rid < |s.reqs| && Tallied(s) && Counts(s.m, s.reqs[rid], e.m, e.req)
    requires s'.reqs == s.reqs[rid := e.req] && s'.m == e.m
    ensures Tallied(s')
  {
    TotalUpdate(IsNoop, s.reqs, rid, e.req);
    TotalUpdate(IsParseError, s.reqs, rid, e.req);
    TotalUpdate(IsApplyError, s.reqs, rid, e.req);
    TotalUpdate(IsCreated, s.reqs, rid, e.req);
    TotalUpdate(IsUpdated, s.reqs, rid, e.req);
    TotalUpdate(IsSynced, s.reqs, rid, e.req);
    TotalUpdate(IsResponse, s.reqs, rid, e.req);
  }

  lemma TallySnoc(s: Sys, x: Input, s': Sys)
    requires Tallied(s) && s'.reqs == s.reqs + [Fresh(x)] && s'.m == s.m
    ensures Tallied(s')
  {
    TotalSnoc(IsNoop, s.reqs, Fresh(x));
    TotalSnoc(IsParseError, s.reqs, Fresh(x));
    TotalSnoc(IsApplyError, s.reqs, Fresh(x));
    TotalSnoc(IsCreated, s.reqs, Fresh(x));
    TotalSnoc(IsUpdated, s.reqs, Fresh(x));
    TotalSnoc(IsSynced, s.reqs, Fresh(x));
    TotalSnoc(IsResponse, s.reqs, Fresh(x));
  }

  lemma StepTallies(c: Config, s: Sys, step: Step, s': Sys)
    requires Safety.Inv(c, s) && Answers.AllTraced(c, s) && Waits.AllWaitOk(s) && Tallied(s) && s' == Do(c, s, step)
    ensures Tallied(s')
  {
    if step.Arrive? {
      TallySnoc(s, step.input, s');
    } else if step.Act? && step.rid < |s.reqs| {
      if s.reqs[step.rid].pc.Applied? {
        FetchedGenerationIsPositive(c, s, step.rid);
      }
      var e := DoMove(c, s, step.rid, step.move);
      MoveCounts(c, s, step.rid, step.move, e);
      TallyUpdate(s, step.rid, e, s');
    }
  }

  /** In every reachable state each counter is the number of requests it stands for: noops, parse errors, failed
      applies, objects created (generation 1) and updated (above 1), finished waits, and responses. */
  lemma {:induction false} CountersTally(c: Config, steps: seq<Step>)
    ensures Tallied(Exec(c, steps))
  {
    if steps != [] {
      var front := steps[..|steps| - 1];
      CountersTally(c, front);
      Safety.Always(c, front);
      Answers.Always(c, front);
      Waits.Always(c, front);
      StepTallies(c, Exec(c, front), steps[|steps| - 1], Exec(c, steps));
    }
  }

  // ---- What they add up to -----------------------------------------------------------

  /** The request is inside `waitForSync`. */
  function Syncing(r: Req): nat {
    if r.pc.Waiting? || r.pc.Unwatched? || r.pc.Watching? || r.pc.Synced? then 1 else 0
  }

  /** The request has been counted as a noop, a parse error or an apply, and not yet as a response. */
  function Unanswered(r: Req): nat {
    if r.pc.Finished? then 1 else Syncing(r)
  }

  function Applies(m: Metrics): nat {
    m.applyErrors + m.applyCreated + m.applyUpdated
  }

  ghost predicate Balanced(s: Sys) {
    && s.m.noops + s.m.parseErrors + Applies(s.m) == s.m.responses + Total(Unanswered, s.reqs)
    && Applies(s.m) == s.m.applyErrors + s.m.syncs + Total(Syncing, s.reqs)
  }

  /** Each request is counted once when it is classified, once when its wait ends and once when it is answered. */
  ghost predicate Once(r: Req) {
    && IsNoop(r) + IsParseError(r) + IsApplyError(r) + IsCreated(r) + IsUpdated(r) == IsResponse(r) + Unanswered(r)
    && IsCreated(r) + IsUpdated(r) == IsSynced(r) + Syncing(r)
  }

  lemma CountedOnce(c: Config, s: Sys, r: Req)
    requires Known(c, s, r) && Positive(r)
    ensures Once(r)
  {
  }

  lemma {:induction false} TotalsAddUp(reqs: seq<Req>)
    requires forall r <- reqs :: Once(r)
    ensures Total(IsNoop, reqs) + Total(IsParseError, reqs) + Total(IsApplyError, reqs) + Total(IsCreated, reqs)
            + Total(IsUpdated, reqs) == Total(IsResponse, reqs) + Total(Unanswered, reqs)
    ensures Total(IsCreated, reqs) + Total(IsUpdated, reqs) == Total(IsSynced, reqs) + Total(Syncing, reqs)
  {
    if reqs != [] {
      TotalsAddUp(reqs[..|reqs| - 1]);
      assert Once(reqs[|reqs| - 1]);
    }
  }

  lemma CountersBalance(c: Config, steps: seq<Step>)
    ensures Balanced(Exec(c, steps))
  {
    var s := Exec(c, steps);
    CountersTally(c, steps);
    Answers.AlwaysKnown(c, steps);
    forall r | r in s.reqs ensures Once(r) {
      var rid :| 0 <= rid < |s.reqs| && s.reqs[rid] == r;
      if r.pc.Applied? {
        FetchedGenerationIsPositive(c, s, rid);
      }
      CountedOnce(c, s, r);
    }
    TotalsAddUp(s.reqs);
  }

  /** When every request has been answered, the responses are the noops, parse errors and applies, and the applies
      are the failed ones and the observed waits. */
  lemma IdleCountersAgree(c: Config, steps: seq<Step>)
    requires forall r <- Exec(c, steps).reqs :: r.pc.Answered?
    ensures var m := Exec(c, steps).m;
            m.responses == m.noops + m.parseErrors + Applies(m) && Applies(m) == m.applyErrors + m.syncs
  {
    CountersBalance(c, steps);
    TotalOfNone(Unanswered, Exec(c, steps).reqs);
    TotalOfNone(Syncing, Exec(c, steps).reqs);
  }
}
