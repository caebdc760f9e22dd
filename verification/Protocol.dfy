/** The provisioning protocol as a step system: any number of concurrent requests, on any number of replicas,
    against one API server with its operator, other writers, a clock and failures
    (internal/webhook/dispatcher.go, internal/webhook/executor.go, internal/webhook/jsm/provider.go). */
module Protocol {
  import opened Basics
  import opened Resource
  import opened Results
  import opened Cluster
  import Executor
  import Jsm
  import Signature

  /** Fixed for a run: how the dispatcher admits a request, what the provider decides about its body,
      and how long the executor waits. */
  datatype Config = Config(
    admission: Input -> Admission,
    decision: Input -> Jsm.Decision,
    syncTimeout: nat)

  /** How `ServeHTTP` gets past, or stops before, the provider. */
  datatype Admission = Pass | UnknownProvider | BodyTooLarge | BodyUnreadable | BadSignature

  function RejectStatus(a: Admission): int
    requires !a.Pass?
  {
    match a
    case UnknownProvider => 404
    case BodyTooLarge => 413
    case BodyUnreadable => 400
    case BadSignature => 401
  }

  /** One HTTP request: its body bytes, whether the connection broke after them, its headers,
      and the clock reading at verification. */
  datatype Input = Input(
    provider: string, wire: string, broken: bool, sigHeader: string, tsHeader: string, clock: Signature.Time)

  /** Where a request's Patch left its object: the version current right after it. */
  datatype Mark = Mark(at: nat, gen: int)

  datatype PC =
    | Received
    | Verified
    | Applying
    | PatchReturned
    | ApplyFailed(err: Executor.K8sErr)
    | Applied
    | Waiting
    | Unwatched
    | Watching(base: nat, pos: nat)
    | Synced(out: ExecResult)
    | Finished(res: ExecResult)
    | Answered(status: int, body: Option<ExecResult>)

  /** `act`, `gen` and `deadline` are the handler's locals; `mark`, `initial`, `watchOk`, `arms`, `waited` and `refused`
      record what happened to it, what its wait returned and which error its apply met. */
  datatype Req = Req(
    input: Input,
    pc: PC,
    act: Option<Jsm.Action>,
    gen: int,
    deadline: nat,
    cancelled: bool,
    mark: Option<Mark>,
    initial: Option<Payload>,
    watchOk: bool,
    arms: seq<Executor.Arm>,
    waited: Option<ExecResult>,
    refused: Option<Executor.K8sErr>)

  datatype Metrics = Metrics(
    noops: nat,
    parseErrors: nat,
    applyErrors: nat,
    applyCreated: nat,
    applyUpdated: nat,
    syncs: nat,
    responses: nat)

  datatype Sys = Sys(log: Log, reconciled: set<nat>, now: nat, reqs: seq<Req>, m: Metrics)

  function Init(): Sys {
    Sys([], {}, 0, [], Metrics(0, 0, 0, 0, 0, 0, 0))
  }

  /** A Patch can succeed, be refused, or take effect although the caller sees an error. */
  datatype PatchReply = Acked | Refused(err: Executor.K8sErr) | LostReply(err: Executor.K8sErr)

  datatype Move =
    | Admit
    | Decide
    | Patch(stamp: Executor.Stamp, reply: PatchReply)
    | Refetch(err: Option<Executor.K8sErr>)
    | ObserveApply
    | InitialGet(ok: bool)
    | OpenWatch(ok: bool)
    | Deliver
    | Stray(obj: Payload)
    | CloseWatch
    | CtxDone
    | ObserveSync
    | Respond
    | Cancel

  datatype Step =
    | Arrive(input: Input)
    | Act(rid: nat, move: Move)
    | Tick
    | Reconcile(i: nat)
    | WriteStatus(i: nat, conditions: seq<Condition>)
    | ForeignWrite(d: Desired)

  /** `classifyProviderErr`. */
  function ClassifyProviderErr(e: Jsm.Sentinel): ExecResult {
    ExecResult(if e == Jsm.ErrBadRequest then BadRequest else Unprocessable, "", "", 0)
  }

  // ---- One request's moves -------------------------------------------------

  /** What a move leaves behind: the request, the log and the counters. */
  datatype Effect = Effect(req: Req, log: Log, m: Metrics)

  function Stay(s: Sys, r: Req): Effect {
    Effect(r, s.log, s.m)
  }

  function Goto(s: Sys, r: Req, pc: PC): Effect {
    Effect(r.(pc := pc), s.log, s.m)
  }

  /** `apply` returns an error. */
  function Fail(s: Sys, r: Req, err: Executor.K8sErr): Effect {
    Effect(r.(pc := ApplyFailed(err), refused := Some(err)), s.log, s.m)
  }

  function DoAdmit(c: Config, s: Sys, r: Req): Effect {
    var a := c.admission(r.input);
    Goto(s, r, if a.Pass? then Verified else Answered(RejectStatus(a), None))
  }

  function DoDecide(c: Config, s: Sys, r: Req): Effect {
    match c.decision(r.input)
    case Apply(act) => Effect(r.(pc := Applying, act := Some(act)), s.log, s.m)
    case NoAction => Effect(r.(pc := Finished(ExecResult(Noop, "", "", 0))), s.log, s.m.(noops := s.m.noops + 1))
    case Refuse(e, _) =>
      Effect(r.(pc := Finished(ClassifyProviderErr(e))), s.log, s.m.(parseErrors := s.m.parseErrors + 1))
  }

  /** The API server rejects a spec its schema does not admit. */
  function DoPatch(s: Sys, rid: nat, r: Req, d: Desired, reply: PatchReply): Effect {
    if !FitsSchema(d.spec) then Fail(s, r, Executor.Invalid)
    else if reply.Refused? then Fail(s, r, reply.err)
    else
      var log := PatchLog(s.log, d, Webhookd(rid));
      PatchLands(s.log, d, Webhookd(rid));
      var at := LatestAt(log, d.key);
      Effect(r.(mark := Some(Mark(at, log[at].cr.generation)),
                pc := if reply.Acked? then PatchReturned else ApplyFailed(reply.err),
                refused := if reply.Acked? then r.refused else Some(reply.err)),
             log, s.m)
  }

  function DoRefetch(s: Sys, r: Req, err: Option<Executor.K8sErr>): Effect
    requires r.act.Some?
  {
    var got := Read(s.log, r.act.value.key);
    if err.Some? then Fail(s, r, err.value)
    else if got.None? then Fail(s, r, Executor.Unclassified)
    else Effect(r.(pc := Applied, gen := got.value.generation), s.log, s.m)
  }

  function CountApply(m: Metrics, outcome: Executor.ApplyLabel): Metrics {
    match outcome
    case LabelError => m.(applyErrors := m.applyErrors + 1)
    case LabelCreated => m.(applyCreated := m.applyCreated + 1)
    case LabelUpdated => m.(applyUpdated := m.applyUpdated + 1)
  }

  function DoObserveApply(c: Config, s: Sys, r: Req): Effect
    requires r.act.Some?
  {
    if r.pc.ApplyFailed? then
      Effect(r.(pc := Finished(Executor.ClassifyK8sErr(r.pc.err, r.act.value.key))), s.log,
             CountApply(s.m, Executor.LabelError))
    else
      Effect(r.(pc := Waiting, deadline := s.now + c.syncTimeout), s.log, CountApply(s.m, Executor.ApplyOutcome(r.gen)))
  }

  /** `waitForSync` returns. */
  function Returned(r: Req, out: ExecResult): Req {
    r.(pc := Synced(out), waited := Some(out))
  }

  function DoInitialGet(s: Sys, r: Req, ok: bool): Effect
    requires r.act.Some?
  {
    var k := r.act.value.key;
    var got := Read(s.log, k);
    if !ok || got.None? then Goto(s, r, Unwatched)
    else
      var seen := Mapping(got.value);
      var (ready, observed) := IsReady(seen, r.gen);
      var r' := r.(initial := Some(seen));
      Effect(if ready then Returned(r', Executor.Outcome(Ready, k, observed)) else r'.(pc := Unwatched), s.log, s.m)
  }

  function DoOpenWatch(s: Sys, r: Req, ok: bool): Effect
    requires r.act.Some?
  {
    if ok then Effect(r.(watchOk := true, pc := Watching(|s.log|, 0)), s.log, s.m)
    else Effect(Returned(r, Executor.Outcome(TransientFailure, r.act.value.key, 0)), s.log, s.m)
  }

  /** One turn of the select loop on the arm `a`, the watch being at `pos` afterwards. */
  function Turn(s: Sys, r: Req, a: Executor.Arm, pos: nat): Effect
    requires r.act.Some? && r.pc.Watching?
  {
    var k := r.act.value.key;
    var r' := r.(arms := r.arms + [a]);
    Effect(if Executor.Decisive(k, r.gen, a) then Returned(r', Executor.Verdict(k, r.gen, a))
           else r'.(pc := Watching(r.pc.base, pos)), s.log, s.m)
  }

  function DoDeliver(s: Sys, r: Req): Effect
    requires r.act.Some? && r.pc.Watching? && r.pc.base <= |s.log| && r.pc.pos <= |s.log|
  {
    var n := NextVisible(s.log, r.pc.base, r.act.value.key.namespace, r.pc.pos);
    if n == |s.log| then Stay(s, r) else Turn(s, r, Executor.Event(Mapping(s.log[n].cr)), n + 1)
  }

  function DoMove(c: Config, s: Sys, rid: nat, move: Move): Effect
    requires rid < |s.reqs|
  {
    var r := s.reqs[rid];
    match move
    case Admit => if r.pc.Received? then DoAdmit(c, s, r) else Stay(s, r)
    case Decide => if r.pc.Verified? then DoDecide(c, s, r) else Stay(s, r)
    case Cancel => Effect(r.(cancelled := true), s.log, s.m)
    case Respond =>
      if r.pc.Finished? then
        Effect(r.(pc := Answered(HTTPStatus(r.pc.res.kind), Some(r.pc.res))), s.log,
               s.m.(responses := s.m.responses + 1))
      else Stay(s, r)
    case _ => if r.act.None? then Stay(s, r) else DoExecute(c, s, rid, r, move)
  }

  /** The moves inside `Execute`. */
  function DoExecute(c: Config, s: Sys, rid: nat, r: Req, move: Move): Effect
    requires r.act.Some?
  {
    match move
    case Patch(stamp, reply) =>
      if r.pc.Applying? then DoPatch(s, rid, r, Executor.Prepared(r.act.value, stamp), reply) else Stay(s, r)
    case Refetch(err) => if r.pc.PatchReturned? then DoRefetch(s, r, err) else Stay(s, r)
    case ObserveApply => if r.pc.ApplyFailed? || r.pc.Applied? then DoObserveApply(c, s, r) else Stay(s, r)
    case InitialGet(ok) => if r.pc.Waiting? then DoInitialGet(s, r, ok) else Stay(s, r)
    case OpenWatch(ok) => if r.pc.Unwatched? then DoOpenWatch(s, r, ok) else Stay(s, r)
    case Deliver =>
      if r.pc.Watching? && r.pc.base <= |s.log| && r.pc.pos <= |s.log| then DoDeliver(s, r) else Stay(s, r)
    case Stray(obj) =>
      if r.pc.Watching? && !obj.Mapping? then Turn(s, r, Executor.Event(obj), r.pc.pos) else Stay(s, r)
    case CloseWatch => if r.pc.Watching? then Turn(s, r, Executor.Closed, r.pc.pos) else Stay(s, r)
    case CtxDone =>
      if r.pc.Watching? && (r.cancelled || s.now >= r.deadline) then Turn(s, r, Executor.Done, r.pc.pos) else Stay(s, r)
    case ObserveSync =>
      if r.pc.Synced? then Effect(r.(pc := Finished(r.pc.out)), s.log, s.m.(syncs := s.m.syncs + 1)) else Stay(s, r)
    case _ => Stay(s, r)
  }

  // ---- Steps and runs ------------------------------------------------------

  function Fresh(x: Input): Req {
    Req(x, Received, None, 0, 0, false, None, None, false, [], None, None)
  }

  /** A step that is not enabled changes nothing, so every sequence of steps is a run. */
  function Do(c: Config, s: Sys, step: Step): Sys {
    match step
    case Arrive(x) => s.(reqs := s.reqs + [Fresh(x)])
    case Act(rid, move) =>
      if rid >= |s.reqs| then s
      else
        var e := DoMove(c, s, rid, move);
        s.(reqs := s.reqs[rid := e.req], log := e.log, m := e.m)
    case Tick => s.(now := s.now + 1)
    case Reconcile(i) => if i < |s.log| then s.(reconciled := s.reconciled + {i}) else s
    case WriteStatus(i, conditions) =>
      if i < |s.log| && (HasReady(conditions) ==> i in s.reconciled) then
        s.(log := StatusLog(s.log, i, conditions))
      else s
    case ForeignWrite(d) =>
      if FitsSchema(d.spec) then s.(log := PatchLog(s.log, d, Foreign)) else s
  }

  /** The state after a run from an empty cluster. */
  function Exec(c: Config, steps: seq<Step>): Sys {
    if steps == [] then Init() else Do(c, Exec(c, steps[..|steps| - 1]), steps[|steps| - 1])
  }

  lemma ExecSnoc(c: Config, steps: seq<Step>, step: Step)
    ensures Exec(c, steps + [step]) == Do(c, Exec(c, steps), step)
  {
    assert (steps + [step])[..|steps|] == steps;
  }

  /** The state after further steps. */
  function Further(c: Config, s: Sys, steps: seq<Step>): Sys {
    if steps == [] then s else Do(c, Further(c, s, steps[..|steps| - 1]), steps[|steps| - 1])
  }

  lemma {:induction false} ExecFurther(c: Config, steps: seq<Step>, more: seq<Step>)
    ensures Exec(c, steps + more) == Further(c, Exec(c, steps), more)
  {
    if more == [] {
      assert steps + more == steps;
    } else {
      var front, last := more[..|more| - 1], more[|more| - 1];
      ExecFurther(c, steps, front);
      assert steps + more == (steps + front) + [last];
      ExecSnoc(c, steps + front, last);
    }
  }
}
