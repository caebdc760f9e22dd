/** Why each request was answered the way it was: its decision, the error its apply met, or what its wait met, with the
    documented status of each (internal/webhook/dispatcher.go, internal/webhook/executor.go,
    internal/webhook/result.go). */
module Answers {
  import opened Basics
  import opened Resource
  import opened Results
  import opened Protocol
  import Cluster
  import Executor
  import Jsm
  import Safety
  import Waits

  // ---- The documented table ------------------------------------------------

  /** What a provider decision that is not an action is answered with. */
  function DecisionStatus(d: Jsm.Decision): int
    requires !d.Apply?
  {
    match d
    case NoAction => 200
    case Refuse(ErrBadRequest, _) => 400
    case Refuse(ErrUnprocessable, _) => 422
  }

  /** What an API error is answered with. */
  function ErrorStatus(e: Executor.K8sErr): int {
    match e
    case Forbidden => 500
    case Invalid => 422
    case ServerTimeout => 503
    case ServiceUnavailable => 503
    case TooManyRequests => 503
    case Conflict => 503
    case Unclassified => 500
  }

  /** What the wait is answered with, from what it met. */
  function WaitStatus(r: Req): Option<int>
    requires r.act.Some?
  {
    if Executor.ReadFirst(r.initial, r.gen) then Some(200)
    else if !r.watchOk then Some(503)
    else
      match Executor.EndingArm(r.act.value.key, r.gen, r.arms)
      case None => None
      case Some(Event(_)) => Some(200)
      case Some(Closed) => Some(503)
      case Some(Done) => Some(504)
  }

  /** The status of an answered request that passed admission. */
  ghost predicate StatusExplained(c: Config, r: Req)
    requires r.pc.Answered?
  {
    if r.act.None? then !c.decision(r.input).Apply? && r.pc.status == DecisionStatus(c.decision(r.input))
    else if r.refused.Some? then r.waited.None? && r.pc.status == ErrorStatus(r.refused.value)
    else r.waited.Some? && Some(r.pc.status) == WaitStatus(r)
  }

  // ---- The invariant ---------------------------------------------------------

  /** Where a result came from. */
  ghost predicate Comes(c: Config, r: Req, res: ExecResult) {
    if r.act.None? then
      && r.refused.None? && r.waited.None?
      && match c.decision(r.input)
         case Apply(_) => false
         case NoAction => res.kind == Noop
         case Refuse(e, _) => res == ClassifyProviderErr(e)
    else if r.refused.Some? then r.waited.None? && res == Executor.ClassifyK8sErr(r.refused.value, r.act.value.key)
    else r.waited == Some(res)
  }

  ghost predicate Traced(c: Config, r: Req) {
    match r.pc
    case ApplyFailed(err) => r.refused == Some(err) && r.act.Some? && r.waited.None?
    case Finished(res) => Comes(c, r, res)
    case Answered(status, Some(res)) => Comes(c, r, res) && status == HTTPStatus(res.kind)
    case Answered(_, None) => r.refused.None? && r.waited.None?
    case Synced(out) => r.refused.None? && r.act.Some? && r.waited == Some(out)
    case _ => r.refused.None? && r.waited.None?
  }

  lemma DispatcherMoveTraces(c: Config, s: Sys, rid: nat, move: Move)
    requires rid < |s.reqs| && Safety.ReqOk(c, s.log, s.reqs[rid]) && Traced(c, s.reqs[rid])
    requires move.Admit? || move.Decide? || move.Respond? || move.Cancel? || s.reqs[rid].act.None?
    ensures Traced(c, DoMove(c, s, rid, move).req)
  {
  }

  predicate ApplyMove(move: Move) {
    move.Patch? || move.Refetch? || move.ObserveApply?
  }

  lemma ApplyMoveTraces(c: Config, s: Sys, rid: nat, r: Req, move: Move)
    requires r.act.Some? && Safety.ReqOk(c, s.log, r) && Traced(c, r) && ApplyMove(move)
    ensures Traced(c, DoExecute(c, s, rid, r, move).req)
  {
    if move.Patch? && r.pc.Applying? {
      PatchTraces(c, s, rid, r, Executor.Prepared(r.act.value, move.stamp), move.reply);
    } else if move.Refetch? && r.pc.PatchReturned? {
      RefetchTraces(c, s, r, move.err);
    }
  }

  lemma PatchTraces(c: Config, s: Sys, rid: nat, r: Req, d: Cluster.Desired, reply: PatchReply)
    requires r.act.Some? && Traced(c, r) && r.pc.Applying?
    ensures Traced(c, DoPatch(s, rid, r, d, reply).req)
  {
  }

  lemma RefetchTraces(c: Config, s: Sys, r: Req, err: Option<Executor.K8sErr>)
    requires r.act.Some? && Traced(c, r) && r.pc.PatchReturned?
    ensures Traced(c, DoRefetch(s, r, err).req)
  {
  }

  lemma WaitMoveTraces(c: Config, s: Sys, rid: nat, r: Req, move: Move)
    requires r.act.Some? && Traced(c, r) && !ApplyMove(move)
    ensures Traced(c, DoExecute(c, s, rid, r, move).req)
  {
    if move.Deliver? || move.Stray? || move.CloseWatch? || move.CtxDone? {
      SelectTraces(c, s, rid, r, move);
    }
  }

  lemma SelectTraces(c: Config, s: Sys, rid: nat, r: Req, move: Move)
    requires r.act.Some? && Traced(c, r) && (move.Deliver? || move.Stray? || move.CloseWatch? || move.CtxDone?)
    ensures Traced(c, DoExecute(c, s, rid, r, move).req)
  {
  }

  lemma MoveTraces(c: Config, s: Sys, rid: nat, move: Move)
    requires rid < |s.reqs| && Safety.ReqOk(c, s.log, s.reqs[rid]) && Traced(c, s.reqs[rid])
    ensures Traced(c, DoMove(c, s, rid, move).req)
  {
    var r := s.reqs[rid];
    if move.Admit? || move.Decide? || move.Respond? || move.Cancel? || r.act.None? {
      DispatcherMoveTraces(c, s, rid, move);
    } else if ApplyMove(move) {
      ApplyMoveTraces(c, s, rid, r, move);
    } else {
      WaitMoveTraces(c, s, rid, r, move);
    }
  }

  ghost predicate AllTraced(c: Config, s: Sys) {
    forall rid | 0 <= rid < |s.reqs| :: Traced(c, s.reqs[rid])
  }

  lemma StepTraces(c: Config, s: Sys, step: Step)
    requires Safety.Inv(c, s) && AllTraced(c, s)
    ensures AllTraced(c, Do(c, s, step))
  {
    if step.Act? && step.rid < |s.reqs| {
      MoveTraces(c, s, step.rid, step.move);
    }
  }

  lemma {:induction false} Always(c: Config, steps: seq<Step>)
    ensures AllTraced(c, Exec(c, steps))
  {
    if steps != [] {
      Always(c, steps[..|steps| - 1]);
      Safety.Always(c, steps[..|steps| - 1]);
      StepTraces(c, Exec(c, steps[..|steps| - 1]), steps[|steps| - 1]);
    }
  }

  // ---- Every answer is explained ----------------------------------------------

  lemma RejectionsAre(a: Admission)
    requires !a.Pass?
    ensures a == UnknownProvider ==> RejectStatus(a) == 404
    ensures a == BodyTooLarge ==> RejectStatus(a) == 413
    ensures a == BodyUnreadable ==> RejectStatus(a) == 400
    ensures a == BadSignature ==> RejectStatus(a) == 401
  {
  }

  lemma WaitExplains(r: Req)
    requires r.act.Some? && r.waited.Some? && Waits.Reports(r, r.waited)
    ensures WaitStatus(r) == Some(HTTPStatus(r.waited.value.kind))
  {
    var k := r.act.value.key;
    Executor.WaitTellsKind(k, r.gen, r.initial, r.watchOk, r.arms, r.waited);
    StatusTellsKind(Ready, Timeout);
  }

  /** The answer of every request in every run: rejected before the provider with the status of the failed check, else
      answered by its decision, by the API error its apply met, or by what its wait met. */
  lemma AnswerIsExplained(c: Config, steps: seq<Step>, rid: nat)
    requires rid < |Exec(c, steps).reqs| && Exec(c, steps).reqs[rid].pc.Answered?
    ensures var r := Exec(c, steps).reqs[rid];
            && (c.admission(r.input) == UnknownProvider ==> r.pc.status == 404)
            && (c.admission(r.input) == BodyTooLarge ==> r.pc.status == 413)
            && (c.admission(r.input) == BodyUnreadable ==> r.pc.status == 400)
            && (c.admission(r.input) == BadSignature ==> r.pc.status == 401)
            && (c.admission(r.input) == Pass <==> Safety.Answer(r).Some?)
            && (c.admission(r.input) == Pass ==> StatusExplained(c, r))
  {
    var s := Exec(c, steps);
    var r := s.reqs[rid];
    Always(c, steps);
    Safety.Always(c, steps);
    assert Traced(c, r) && Safety.ReqOk(c, s.log, r);
    if c.admission(r.input) != Pass {
      RejectionsAre(c.admission(r.input));
    }
    if r.waited.Some? {
      Waits.WaitRefinesSequential(c, steps, rid);
      WaitExplains(r);
    }
  }

  // ---- What decides the answer, decides it for good ------------------------------

  predicate Decided(r: Req) { r.refused.Some? || r.waited.Some? }

  ghost predicate SameFate(r: Req, r': Req) {
    && r'.refused == r.refused && r'.waited == r.waited && r'.act == r.act && r'.input == r.input
  }

  lemma MoveKeepsFate(c: Config, s: Sys, rid: nat, move: Move)
    requires rid < |s.reqs| && Traced(c, s.reqs[rid]) && Safety.ReqOk(c, s.log, s.reqs[rid]) && Decided(s.reqs[rid])
    requires Waits.WaitOk(s.log, s.reqs[rid]) && s.reqs[rid].act.Some?
    ensures SameFate(s.reqs[rid], DoMove(c, s, rid, move).req)
  {
  }

  /** Everything known of every request at once. */
  ghost predicate AllKnown(c: Config, s: Sys) {
    Safety.Inv(c, s) && AllTraced(c, s) && Waits.AllWaitOk(s)
  }

  lemma AlwaysKnown(c: Config, steps: seq<Step>)
    ensures AllKnown(c, Exec(c, steps))
  {
    Always(c, steps);
    Safety.Always(c, steps);
    Waits.Always(c, steps);
  }

  lemma FateStep(c: Config, s: Sys, rid: nat, fate: Req, step: Step, s': Sys)
    requires AllKnown(c, s) && rid < |s.reqs| && SameFate(fate, s.reqs[rid]) && fate.act.Some? && Decided(fate)
    requires s' == Do(c, s, step)
    ensures AllKnown(c, s') && rid < |s'.reqs| && SameFate(fate, s'.reqs[rid])
  {
    StepTraces(c, s, step);
    Safety.StepKeeps(c, s, step);
    Waits.StepKeeps(c, s, step);
    if step.Act? && step.rid == rid {
      MoveKeepsFate(c, s, rid, step.move);
    }
  }

  lemma {:induction false} FateStays(c: Config, s: Sys, rid: nat, fate: Req, more: seq<Step>)
    requires AllKnown(c, s) && rid < |s.reqs| && SameFate(fate, s.reqs[rid]) && fate.act.Some? && Decided(fate)
    ensures var s' := Further(c, s, more); AllKnown(c, s') && rid < |s'.reqs| && SameFate(fate, s'.reqs[rid])
  {
    if more != [] {
      var front, last := more[..|more| - 1], more[|more| - 1];
      FateStays(c, s, rid, fate, front);
      FateStep(c, Further(c, s, front), rid, fate, last, Further(c, s, more));
    }
  }

  /** The request has this status once it is answered. */
  predicate AnsweredWith(s: Sys, rid: nat, status: int) {
    rid < |s.reqs| && (s.reqs[rid].pc.Answered? ==> s.reqs[rid].pc.status == status)
  }

  lemma FateIsAnswered(c: Config, s: Sys, rid: nat, fate: Req)
    requires rid < |s.reqs| && Traced(c, s.reqs[rid]) && Safety.ReqOk(c, s.log, s.reqs[rid])
    requires SameFate(fate, s.reqs[rid]) && fate.act.Some? && Decided(fate)
    ensures fate.refused.Some? ==> AnsweredWith(s, rid, ErrorStatus(fate.refused.value))
    ensures fate.refused.None? ==> AnsweredWith(s, rid, HTTPStatus(fate.waited.value.kind))
  {
  }

  /** What decided a request's answer is answered with its status, whatever happens afterwards. */
  lemma DecidedIsAnswered(c: Config, steps: seq<Step>, rid: nat, more: seq<Step>, fate: Req)
    requires rid < |Exec(c, steps).reqs| && fate == Exec(c, steps).reqs[rid] && fate.act.Some? && Decided(fate)
    ensures fate.refused.Some? ==> AnsweredWith(Exec(c, steps + more), rid, ErrorStatus(fate.refused.value))
    ensures fate.refused.None? ==> AnsweredWith(Exec(c, steps + more), rid, HTTPStatus(fate.waited.value.kind))
  {
    AlwaysKnown(c, steps);
    ExecFurther(c, steps, more);
    FateStays(c, Exec(c, steps), rid, fate, more);
    FateIsAnswered(c, Exec(c, steps + more), rid, fate);
  }

  /** A Patch the API server does not acknowledge, and a spec its schema refuses, decide the answer. */
  lemma PatchErrorIsAnswered(c: Config, steps: seq<Step>, rid: nat, stamp: Executor.Stamp, reply: PatchReply,
                             more: seq<Step>)
    requires rid < |Exec(c, steps).reqs| && Exec(c, steps).reqs[rid].pc.Applying?
    requires Exec(c, steps).reqs[rid].act.Some?
    requires !FitsSchema(Exec(c, steps).reqs[rid].act.value.spec) || !reply.Acked?
    ensures var e := if !FitsSchema(Exec(c, steps).reqs[rid].act.value.spec) then Executor.Invalid else reply.err;
            AnsweredWith(Exec(c, steps + [Act(rid, Patch(stamp, reply))] + more), rid, ErrorStatus(e))
  {
    var step := Act(rid, Patch(stamp, reply));
    ExecSnoc(c, steps, step);
    DecidedIsAnswered(c, steps + [step], rid, more, Exec(c, steps + [step]).reqs[rid]);
  }

  /** A watching request whose context has ended and is looked at reports Timeout and is answered 504, whatever happens
      afterwards; one whose channel closes reports TransientFailure and is answered 503. */
  lemma EndedSelectIsAnswered(c: Config, steps: seq<Step>, rid: nat, move: Move, more: seq<Step>)
    requires rid < |Exec(c, steps).reqs| && Exec(c, steps).reqs[rid].pc.Watching?
    requires var s := Exec(c, steps);
             move == CloseWatch || (move == CtxDone && (s.reqs[rid].cancelled || s.now >= s.reqs[rid].deadline))
    ensures var s := Exec(c, steps + [Act(rid, move)]);
            && rid < |s.reqs| && s.reqs[rid].waited.Some?
            && s.reqs[rid].waited.value.kind == (if move == CtxDone then Timeout else TransientFailure)
    ensures AnsweredWith(Exec(c, steps + [Act(rid, move)] + more), rid, if move == CtxDone then 504 else 503)
  {
    Waits.Always(c, steps);
    Always(c, steps);
    var s := Exec(c, steps);
    assert Waits.WaitOk(s.log, s.reqs[rid]) && Traced(c, s.reqs[rid]);
    ExecSnoc(c, steps, Act(rid, move));
    DecidedIsAnswered(c, steps + [Act(rid, move)], rid, more, Exec(c, steps + [Act(rid, move)]).reqs[rid]);
  }
}
