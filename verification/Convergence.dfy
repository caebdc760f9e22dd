/** Any number of deliveries of one ticket body, on any number of replicas, lead to one object and one spec. */
module Convergence {
  import opened Basics
  import opened Resource
  import opened Results
  import opened Cluster
  import opened Protocol
  import Executor
  import Safety
  import Waits

  /** Every request for the object `k` asks for `spec`, as deliveries of one body do. */
  ghost predicate OneSpec(c: Config, s: Sys, k: Key, spec: Spec) {
    forall r <- s.reqs :: c.decision(r.input).Apply? && c.decision(r.input).act.key == k ==>
                          c.decision(r.input).act.spec == spec
  }

  predicate NoForeign(steps: seq<Step>, k: Key) {
    forall step <- steps :: step.ForeignWrite? ==> step.d.key != k
  }

  /** The request's Patch of `k` has taken effect since `s0`. */
  ghost predicate LandedSince(s0: Sys, s: Sys, rid: nat, k: Key) {
    && rid < |s.reqs| && s.reqs[rid].mark.Some? && s.reqs[rid].act.Some? && s.reqs[rid].act.value.key == k
    && (rid < |s0.reqs| ==> s0.reqs[rid].mark.None?)
  }

  /** The object is as it was, or it is at the next generation with the requested spec. */
  ghost predicate AtMostOneBump(before: Option<CustomResource>, after: Option<CustomResource>, spec: Spec) {
    match before
    case None => after.Some? ==> after.value.generation == 1 && after.value.spec == spec
    case Some(o) =>
      && after.Some?
      && ((after.value.generation == o.generation && after.value.spec == o.spec)
          || (after.value.generation == o.generation + 1 && after.value.spec == spec))
  }

  ghost predicate Converging(s0: Sys, s: Sys, rid: nat, k: Key, spec: Spec) {
    && |s0.reqs| <= |s.reqs|
    && AtMostOneBump(Read(s0.log, k), Read(s.log, k), spec)
    && (LandedSince(s0, s, rid, k) ==> Read(s.log, k).Some? && Read(s.log, k).value.spec == spec)
  }

  /** Every request keeps its index and its input. */
  lemma InputsStay(c: Config, s: Sys, step: Step)
    ensures |s.reqs| <= |Do(c, s, step).reqs|
    ensures forall rid | 0 <= rid < |s.reqs| :: Do(c, s, step).reqs[rid].input == s.reqs[rid].input
  {
    if step.Act? && step.rid < |s.reqs| {
      Safety.MoveFrame(c, s, step.rid, step.move);
    }
  }

  lemma OneSpecBefore(c: Config, s: Sys, step: Step, k: Key, spec: Spec)
    requires OneSpec(c, Do(c, s, step), k, spec)
    ensures OneSpec(c, s, k, spec)
  {
    InputsStay(c, s, step);
    forall r | r in s.reqs && c.decision(r.input).Apply? && c.decision(r.input).act.key == k
      ensures c.decision(r.input).act.spec == spec
    {
      var rid :| 0 <= rid < |s.reqs| && s.reqs[rid] == r;
      assert Do(c, s, step).reqs[rid].input == r.input;
    }
  }

  /** How one step may change the object when only `spec` is asked for: not at all, by a Patch, or in its status. */
  ghost predicate Touched(before: Option<CustomResource>, after: Option<CustomResource>, spec: Spec) {
    || after == before
    || (after.Some? && after.value.spec == spec
        && after.value.generation == (if before.None? then 1
                                      else if before.value.spec == spec then before.value.generation
                                      else before.value.generation + 1)
        && (before.Some? ==> after.value.status == before.value.status))
    || (before.Some? && after.Some? && after.value.spec == before.value.spec
        && after.value.generation == before.value.generation)
  }

  lemma PatchTouches(log: Log, d: Desired, writer: Writer, k: Key, spec: Spec)
    requires d.key == k ==> d.spec == spec
    ensures Touched(Read(log, k), Read(PatchLog(log, d, writer), k), spec)
    ensures Read(PatchLog(log, d, writer), d.key).Some? && Read(PatchLog(log, d, writer), d.key).value.spec == d.spec
  {
  }

  lemma StatusTouches(log: Log, i: nat, conditions: seq<Condition>, k: Key, spec: Spec)
    requires i < |log|
    ensures Touched(Read(log, k), Read(StatusLog(log, i, conditions), k), spec)
    ensures Read(log, k).Some? ==>
              Read(StatusLog(log, i, conditions), k).Some?
              && Read(StatusLog(log, i, conditions), k).value.generation == Read(log, k).value.generation
              && Read(StatusLog(log, i, conditions), k).value.spec == Read(log, k).value.spec
  {
  }

  lemma MoveTouches(c: Config, s: Sys, rid: nat, move: Move, k: Key, spec: Spec)
    requires rid < |s.reqs| && Safety.ReqOk(c, s.log, s.reqs[rid]) && OneSpec(c, s, k, spec)
    ensures Touched(Read(s.log, k), Read(DoMove(c, s, rid, move).log, k), spec)
  {
    Safety.MoveFrame(c, s, rid, move);
    var r := s.reqs[rid];
    if Safety.IsPatching(r, move) {
      assert r in s.reqs;
      PatchTouches(s.log, Executor.Prepared(r.act.value, move.stamp), Webhookd(rid), k, spec);
    }
  }

  lemma StepTouches(c: Config, s: Sys, step: Step, k: Key, spec: Spec)
    requires Safety.Inv(c, s) && OneSpec(c, s, k, spec) && (step.ForeignWrite? ==> step.d.key != k)
    ensures Touched(Read(s.log, k), Read(Do(c, s, step).log, k), spec)
  {
    match step
    case Act(rid, move) =>
      if rid < |s.reqs| {
        MoveTouches(c, s, rid, move, k, spec);
      }
    case WriteStatus(i, conditions) =>
      if i < |s.log| {
        StatusTouches(s.log, i, conditions, k, spec);
      }
    case ForeignWrite(d) => PatchTouches(s.log, d, Foreign, k, spec);
    case _ =>
  }

  /** The object named by the request's action holds its spec. */
  ghost predicate Holds(log: Log, r: Req) {
    r.act.Some? && Read(log, r.act.value.key).Some? && Read(log, r.act.value.key).value.spec == r.act.value.spec
  }

  /** A mark appears only when the object has just taken the request's spec. */
  lemma MoveMarks(c: Config, s: Sys, rid: nat, move: Move)
    requires rid < |s.reqs| && Safety.ReqOk(c, s.log, s.reqs[rid])
    ensures var r, e := s.reqs[rid], DoMove(c, s, rid, move);
            (e.req.mark == r.mark && (r.mark.Some? ==> e.req.act == r.act)) || Holds(e.log, e.req)
  {
    var r := s.reqs[rid];
    Safety.MoveFrame(c, s, rid, move);
    if Safety.IsPatching(r, move) {
      PatchTouches(s.log, Executor.Prepared(r.act.value, move.stamp), Webhookd(rid), r.act.value.key, r.act.value.spec);
    }
  }

  lemma StepMarksReq(c: Config, s: Sys, step: Step, rid: nat)
    requires rid < |s.reqs| && Safety.ReqOk(c, s.log, s.reqs[rid])
    ensures var r, s' := s.reqs[rid], Do(c, s, step);
            && rid < |s'.reqs|
            && ((s'.reqs[rid].mark == r.mark && (r.mark.Some? ==> s'.reqs[rid].act == r.act))
                || Holds(s'.log, s'.reqs[rid]))
  {
    if step.Act? && step.rid == rid {
      MoveMarks(c, s, rid, step.move);
    }
  }

  lemma StepMarks(c: Config, s0: Sys, s: Sys, step: Step, rid: nat, k: Key, spec: Spec)
    requires Safety.Inv(c, s) && OneSpec(c, Do(c, s, step), k, spec) && |s0.reqs| <= |s.reqs|
    requires LandedSince(s0, Do(c, s, step), rid, k) && !LandedSince(s0, s, rid, k)
    ensures Read(Do(c, s, step).log, k).Some? && Read(Do(c, s, step).log, k).value.spec == spec
  {
    Safety.StepKeeps(c, s, step);
    var s' := Do(c, s, step);
    assert Safety.ReqOk(c, s'.log, s'.reqs[rid]) && s'.reqs[rid] in s'.reqs;
    if rid < |s.reqs| {
      StepMarksReq(c, s, step, rid);
    }
  }

  lemma StepConverges(c: Config, s0: Sys, s: Sys, step: Step, rid: nat, k: Key, spec: Spec)
    requires Safety.Inv(c, s) && Converging(s0, s, rid, k, spec) && OneSpec(c, Do(c, s, step), k, spec)
    requires step.ForeignWrite? ==> step.d.key != k
    ensures Converging(s0, Do(c, s, step), rid, k, spec)
  {
    InputsStay(c, s, step);
    OneSpecBefore(c, s, step, k, spec);
    StepTouches(c, s, step, k, spec);
    if LandedSince(s0, Do(c, s, step), rid, k) && !LandedSince(s0, s, rid, k) {
      StepMarks(c, s0, s, step, rid, k, spec);
    }
  }

  /** Retries and replicas converge: from any reachable state, while every request for an object asks for one spec and
      no foreign writer touches it, its generation rises at most once, and as soon as one of those Patches has taken
      effect, acknowledged or not, the object has that spec. */
  lemma {:induction false} RetriesConverge(c: Config, steps: seq<Step>, more: seq<Step>, rid: nat, k: Key, spec: Spec)
    requires NoForeign(more, k) && OneSpec(c, Exec(c, steps + more), k, spec)
    ensures Converging(Exec(c, steps), Exec(c, steps + more), rid, k, spec)
  {
    if more == [] {
      assert steps + more == steps;
    } else {
      var front, last := more[..|more| - 1], more[|more| - 1];
      assert steps + more == (steps + front) + [last];
      ExecSnoc(c, steps + front, last);
      var s := Exec(c, steps + front);
      OneSpecBefore(c, s, last, k, spec);
      RetriesConverge(c, steps, front, rid, k, spec);
      Safety.Always(c, steps + front);
      StepConverges(c, Exec(c, steps), s, last, rid, k, spec);
    }
  }

  // ---- A retry of a provisioned ticket ---------------------------------------

  /** The object holds `spec` at generation `g`, and the operator reports that generation Ready. */
  ghost predicate SettledIn(log: Log, k: Key, spec: Spec, g: int) {
    var cr := Read(log, k);
    cr.Some? && cr.value.spec == spec && cr.value.generation == g && ReadyFor(cr.value, g)
  }

  /** The operator does not take a Ready back. */
  ghost predicate OperatorSteady(log: Log, from: nat, k: Key, g: int) {
    forall i | from <= i < |log| && log[i].writer == Operator && log[i].cr.key == k :: ReadyFor(log[i].cr, g)
  }

  /** A request whose first read succeeded is ready at once and has opened no watch. */
  ghost predicate AtOnce(r: Req, k: Key, g: int) {
    r.act.Some? && r.act.value.key == k ==>
      && (Safety.AfterGet(r.pc) || r.waited.Some? ==> r.gen == g)
      && (r.initial.Some? ==> r.waited.Some? && r.waited.value.kind == Ready && !r.watchOk)
  }

  ghost predicate RetriesAtOnce(s0: Sys, s: Sys, k: Key, g: int) {
    |s0.reqs| <= |s.reqs| && forall rid | |s0.reqs| <= rid < |s.reqs| :: AtOnce(s.reqs[rid], k, g)
  }

  lemma MoveAtOnce(c: Config, s: Sys, rid: nat, move: Move, k: Key, spec: Spec, g: int)
    requires rid < |s.reqs| && Safety.ReqOk(c, s.log, s.reqs[rid]) && Waits.WaitOk(s.log, s.reqs[rid])
    requires SettledIn(s.log, k, spec, g) && AtOnce(s.reqs[rid], k, g) && !move.Patch?
    ensures AtOnce(DoMove(c, s, rid, move).req, k, g)
  {
    var r := s.reqs[rid];
    if move.Admit? || move.Decide? || move.Cancel? || move.Respond? || r.act.None? {
      DispatcherAtOnce(c, s, rid, move, k, g);
    } else if r.act.value.key == k {
      ExecuteAtOnce(c, s, rid, r, move, k, spec, g);
    } else {
      Safety.ExecuteFrame(c, s, rid, r, move);
    }
  }

  lemma DispatcherAtOnce(c: Config, s: Sys, rid: nat, move: Move, k: Key, g: int)
    requires rid < |s.reqs| && Safety.ReqOk(c, s.log, s.reqs[rid]) && Waits.WaitOk(s.log, s.reqs[rid])
    requires AtOnce(s.reqs[rid], k, g)
    requires move.Admit? || move.Decide? || move.Cancel? || move.Respond? || s.reqs[rid].act.None?
    ensures AtOnce(DoMove(c, s, rid, move).req, k, g)
  {
  }

  lemma ExecuteAtOnce(c: Config, s: Sys, rid: nat, r: Req, move: Move, k: Key, spec: Spec, g: int)
    requires Waits.WaitOk(s.log, r) && r.act.Some? && r.act.value.key == k
    requires SettledIn(s.log, k, spec, g) && AtOnce(r, k, g) && !move.Patch?
    ensures AtOnce(DoExecute(c, s, rid, r, move).req, k, g)
  {
  }

  /** A Patch with the settled spec leaves generation and status alone. */
  lemma PatchStaysSettled(log: Log, d: Desired, writer: Writer, k: Key, spec: Spec, g: int)
    requires d.key == k ==> d.spec == spec
    requires SettledIn(log, k, spec, g)
    ensures SettledIn(PatchLog(log, d, writer), k, spec, g)
  {
  }

  lemma StatusStaysSettled(log: Log, i: nat, conditions: seq<Condition>, from: nat, k: Key, spec: Spec, g: int)
    requires i < |log| && from <= |log| && OperatorSteady(StatusLog(log, i, conditions), from, k, g)
    requires SettledIn(log, k, spec, g)
    ensures SettledIn(StatusLog(log, i, conditions), k, spec, g)
  {
    StatusTouches(log, i, conditions, k, spec);
    var log' := StatusLog(log, i, conditions);
    if log' != log && log[i].cr.key == k {
      assert log'[|log'| - 1].writer == Operator;
      ReadLast(log', k);
      assert LatestAt(log', k) == |log'| - 1;
    }
  }

  lemma MoveStaysSettled(c: Config, s: Sys, rid: nat, move: Move, k: Key, spec: Spec, g: int)
    requires rid < |s.reqs| && Safety.ReqOk(c, s.log, s.reqs[rid])
    requires OneSpec(c, s, k, spec) && SettledIn(s.log, k, spec, g)
    ensures SettledIn(DoMove(c, s, rid, move).log, k, spec, g)
  {
    Safety.MoveFrame(c, s, rid, move);
    var r := s.reqs[rid];
    if Safety.IsPatching(r, move) {
      assert r in s.reqs;
      PatchStaysSettled(s.log, Executor.Prepared(r.act.value, move.stamp), Webhookd(rid), k, spec, g);
    }
  }

  lemma StepStaysSettled(c: Config, s: Sys, step: Step, from: nat, k: Key, spec: Spec, g: int)
    requires Safety.Inv(c, s) && OneSpec(c, s, k, spec) && SettledIn(s.log, k, spec, g)
    requires step.ForeignWrite? ==> step.d.key != k
    requires from <= |s.log| && OperatorSteady(Do(c, s, step).log, from, k, g)
    ensures SettledIn(Do(c, s, step).log, k, spec, g)
  {
    match step
    case Act(rid, move) =>
      if rid < |s.reqs| {
        MoveStaysSettled(c, s, rid, move, k, spec, g);
      }
    case WriteStatus(i, conditions) =>
      if i < |s.log| && (HasReady(conditions) ==> i in s.reconciled) {
        StatusStaysSettled(s.log, i, conditions, from, k, spec, g);
      }
    case ForeignWrite(d) => PatchStaysSettled(s.log, d, Foreign, k, spec, g);
    case _ =>
  }

  lemma PatchAtOnce(c: Config, s: Sys, rid: nat, move: Move, k: Key, g: int)
    requires rid < |s.reqs| && move.Patch? && AtOnce(s.reqs[rid], k, g) && Waits.WaitOk(s.log, s.reqs[rid])
    ensures AtOnce(DoMove(c, s, rid, move).req, k, g)
  {
  }

  lemma StepAtOnce(c: Config, s0: Sys, s: Sys, step: Step, k: Key, spec: Spec, g: int)
    requires Safety.Inv(c, s) && Waits.AllWaitOk(s) && SettledIn(s.log, k, spec, g) && RetriesAtOnce(s0, s, k, g)
    ensures RetriesAtOnce(s0, Do(c, s, step), k, g)
  {
    if step.Act? && step.rid < |s.reqs| && |s0.reqs| <= step.rid {
      if step.move.Patch? {
        PatchAtOnce(c, s, step.rid, step.move, k, g);
      } else {
        MoveAtOnce(c, s, step.rid, step.move, k, spec, g);
      }
    }
  }

  /** A delivery repeated after the operator has reconciled is answered from the first read: for every request that
      arrives once the object is settled, in every interleaving with more deliveries and with an operator that does not
      take its Ready back, a successful first read ends the wait Ready, at that generation, without a watch. */
  lemma {:induction false} RetryIsReadyAtOnce(c: Config, steps: seq<Step>, more: seq<Step>, k: Key, spec: Spec, g: int)
    requires SettledIn(Exec(c, steps).log, k, spec, g)
    requires NoForeign(more, k) && OneSpec(c, Exec(c, steps + more), k, spec)
    requires OperatorSteady(Exec(c, steps + more).log, |Exec(c, steps).log|, k, g)
    ensures SettledIn(Exec(c, steps + more).log, k, spec, g)
    ensures RetriesAtOnce(Exec(c, steps), Exec(c, steps + more), k, g)
    ensures Exec(c, steps).log <= Exec(c, steps + more).log
  {
    if more == [] {
      assert steps + more == steps;
    } else {
      var front, last := more[..|more| - 1], more[|more| - 1];
      assert steps + more == (steps + front) + [last];
      ExecSnoc(c, steps + front, last);
      var s0, s := Exec(c, steps), Exec(c, steps + front);
      Safety.Always(c, steps + front);
      Waits.Always(c, steps + front);
      Safety.StepKeeps(c, s, last);
      OneSpecBefore(c, s, last, k, spec);
      assert OperatorSteady(s.log, |s0.log|, k, g) by {
        assert forall i | 0 <= i < |s.log| :: Do(c, s, last).log[i] == s.log[i];
      }
      RetryIsReadyAtOnce(c, steps, front, k, spec, g);
      StepStaysSettled(c, s, last, |s0.log|, k, spec, g);
      StepAtOnce(c, s0, s, last, k, spec, g);
    }
  }
}
