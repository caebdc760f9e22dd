/** What every reachable state of the provisioning protocol keeps, and what its answers therefore mean. */
module Safety {
  import opened Basics
  import opened Resource
  import opened Results
  import opened Cluster
  import opened Protocol
  import Executor
  import Jsm

  // ---- The invariant -------------------------------------------------------

  predicate InExecutor(pc: PC) {
    pc.Applying? || pc.ApplyFailed? || AfterPatch(pc)
  }

  predicate AfterPatch(pc: PC) {
    pc.PatchReturned? || AfterGet(pc) || pc.Synced?
  }

  predicate AfterGet(pc: PC) {
    pc.Applied? || pc.Waiting? || pc.Unwatched? || pc.Watching?
  }

  /** The request's Patch took effect: the marked version is its object with its spec. */
  ghost predicate Landed(log: Log, r: Req) {
    && r.act.Some? && r.mark.Some?
    && r.mark.value.at < |log|
    && log[r.mark.value.at].cr.key == r.act.value.key
    && log[r.mark.value.at].cr.spec == r.act.value.spec
    && log[r.mark.value.at].cr.generation == r.mark.value.gen
  }

  ghost predicate SawReady(log: Log, r: Req, observed: int)
    requires r.act.Some?
  {
    exists j :: 0 <= j < |log| && log[j].cr.key == r.act.value.key && ReadyFor(log[j].cr, r.gen)
             && log[j].cr.status.observedGeneration == observed
  }

  /** What must be true of a request for the executor or the dispatcher to report `res`. */
  ghost predicate Justified(c: Config, log: Log, r: Req, res: ExecResult) {
    match res.kind
    case Noop => r.act.None? && c.decision(r.input) == Jsm.NoAction
    case BadRequest =>
      r.act.None? && c.decision(r.input).Refuse? && c.decision(r.input).sentinel == Jsm.ErrBadRequest
    case Unprocessable =>
      if r.act.Some? then Executor.Names(res, r.act.value.key)
      else c.decision(r.input).Refuse? && c.decision(r.input).sentinel == Jsm.ErrUnprocessable
    case Ready =>
      && r.act.Some? && r.mark.Some? && Executor.Names(res, r.act.value.key)
      && r.gen >= r.mark.value.gen && SawReady(log, r, res.observedGeneration)
    case Timeout => r.act.Some? && r.mark.Some? && Executor.Names(res, r.act.value.key)
    case TransientFailure | InternalError => r.act.Some? && Executor.Names(res, r.act.value.key)
  }

  ghost predicate PcOk(c: Config, log: Log, r: Req) {
    match r.pc
    case Received => r.act.None?
    case Verified => r.act.None? && c.admission(r.input) == Pass
    case Watching(base, pos) => base <= |log| && pos <= |log|
    case Synced(out) => Justified(c, log, r, out) && out.kind in {Ready, Timeout, TransientFailure}
    case Finished(res) => Justified(c, log, r, res) && c.admission(r.input) == Pass
    case Answered(status, None) =>
      r.act.None? && !c.admission(r.input).Pass? && status == RejectStatus(c.admission(r.input))
    case Answered(status, Some(res)) =>
      Justified(c, log, r, res) && c.admission(r.input) == Pass && status == HTTPStatus(res.kind)
    case _ => true
  }

  ghost predicate ReqOk(c: Config, log: Log, r: Req) {
    && (r.act.Some? ==> c.admission(r.input) == Pass && c.decision(r.input) == Jsm.Apply(r.act.value))
    && (InExecutor(r.pc) ==> r.act.Some?)
    && (r.mark.Some? ==> Landed(log, r))
    && (AfterPatch(r.pc) ==> r.mark.Some?)
    && (AfterGet(r.pc) ==> r.gen >= r.mark.value.gen)
    && PcOk(c, log, r)
  }

  ghost predicate Carries(cr: CustomResource, d: Desired) {
    cr.key == d.key && cr.spec == d.spec && cr.labels == d.labels && cr.annotations == d.annotations
  }

  /** A version webhookd wrote is its request's object as the executor stamped it. */
  ghost predicate Wrote(r: Req, cr: CustomResource) {
    r.act.Some? && exists stamp :: Carries(cr, Executor.Prepared(r.act.value, stamp))
  }

  ghost predicate Signed(s: Sys) {
    forall i | 0 <= i < |s.log| && s.log[i].writer.Webhookd? ::
      s.log[i].writer.rid < |s.reqs| && Wrote(s.reqs[s.log[i].writer.rid], s.log[i].cr)
  }

  ghost predicate Inv(c: Config, s: Sys) {
    && Lawful(s.log, s.reconciled)
    && Signed(s)
    && forall rid | 0 <= rid < |s.reqs| :: ReqOk(c, s.log, s.reqs[rid])
  }

  // ---- The invariant is kept -----------------------------------------------

  lemma SawReadyStays(log: Log, log': Log, r: Req, observed: int)
    requires log <= log' && r.act.Some? && SawReady(log, r, observed)
    ensures SawReady(log', r, observed)
  {
    var j :| 0 <= j < |log| && log[j].cr.key == r.act.value.key && ReadyFor(log[j].cr, r.gen)
             && log[j].cr.status.observedGeneration == observed;
    assert log'[j] == log[j];
  }

  /** Other writers only extend the log, which keeps what is known of every request. */
  lemma ReqOkStays(c: Config, log: Log, log': Log, r: Req)
    requires log <= log' && ReqOk(c, log, r)
    ensures ReqOk(c, log', r)
  {
    var res := match r.pc
      case Synced(out) => Some(out)
      case Finished(res) => Some(res)
      case Answered(_, body) => body
      case _ => None;
    if res.Some? && res.value.kind == Ready && r.act.Some? && SawReady(log, r, res.value.observedGeneration) {
      SawReadyStays(log, log', r, res.value.observedGeneration);
    }
  }

  lemma MarkKeeps(c: Config, before: Log, log: Log, r: Req, at: nat, pc: PC, refused: Option<Executor.K8sErr>)
    requires ReqOk(c, before, r) && r.pc.Applying? && (pc.PatchReturned? || pc.ApplyFailed?)
    requires at < |log| && log[at].cr.key == r.act.value.key && log[at].cr.spec == r.act.value.spec
    ensures ReqOk(c, log, r.(mark := Some(Mark(at, log[at].cr.generation)), pc := pc, refused := refused))
  {
  }

  lemma RefusalKeeps(c: Config, log: Log, r: Req, err: Executor.K8sErr)
    requires ReqOk(c, log, r) && (r.pc.Applying? || r.pc.PatchReturned?)
    ensures ReqOk(c, log, r.(pc := ApplyFailed(err), refused := Some(err)))
  {
  }

  lemma PatchKeeps(c: Config, s: Sys, rid: nat, r: Req, d: Desired, reply: PatchReply)
    requires ReqOk(c, s.log, r) && r.pc.Applying? && d.key == r.act.value.key && d.spec == r.act.value.spec
    ensures var e := DoPatch(s, rid, r, d, reply);
            && s.log <= e.log && ReqOk(c, e.log, e.req) && e.req.act == r.act
            && forall i | |s.log| <= i < |e.log| :: e.log[i].writer == Webhookd(rid) && Carries(e.log[i].cr, d)
  {
    if !FitsSchema(d.spec) {
      RefusalKeeps(c, s.log, r, Executor.Invalid);
    } else if reply.Refused? {
      RefusalKeeps(c, s.log, r, reply.err);
    } else {
      var log := PatchLog(s.log, d, Webhookd(rid));
      PatchLands(s.log, d, Webhookd(rid));
      MarkKeeps(c, s.log, log, r, LatestAt(log, d.key), if reply.Acked? then PatchReturned else ApplyFailed(reply.err),
                if reply.Acked? then r.refused else Some(reply.err));
    }
  }

  /** What is reported does not depend on where the request stands, so it can be passed on. */
  lemma PassOn(c: Config, log: Log, r: Req, res: ExecResult, pc: PC)
    requires ReqOk(c, log, r) && Justified(c, log, r, res) && c.admission(r.input) == Pass
    requires pc == Finished(res) || pc == Answered(HTTPStatus(res.kind), Some(res))
    ensures ReqOk(c, log, r.(pc := pc))
  {
  }

  lemma DecideKeeps(c: Config, s: Sys, r: Req)
    requires ReqOk(c, s.log, r) && r.pc.Verified?
    ensures ReqOk(c, s.log, DoDecide(c, s, r).req)
  {
    match c.decision(r.input)
    case NoAction => PassOn(c, s.log, r, ExecResult(Noop, "", "", 0), Finished(ExecResult(Noop, "", "", 0)));
    case Refuse(e, _) => PassOn(c, s.log, r, ClassifyProviderErr(e), Finished(ClassifyProviderErr(e)));
    case Apply(_) =>
  }

  lemma DispatcherMoveKeeps(c: Config, s: Sys, rid: nat, move: Move)
    requires rid < |s.reqs| && ReqOk(c, s.log, s.reqs[rid])
    requires move.Admit? || move.Decide? || move.Cancel? || move.Respond?
    ensures ReqOk(c, s.log, DoMove(c, s, rid, move).req)
  {
    var r := s.reqs[rid];
    if move.Decide? && r.pc.Verified? {
      DecideKeeps(c, s, r);
    } else if move.Respond? && r.pc.Finished? {
      PassOn(c, s.log, r, r.pc.res, Answered(HTTPStatus(r.pc.res.kind), Some(r.pc.res)));
    } else if move.Cancel? {
      CancelKeeps(c, s.log, r);
    }
  }

  lemma CancelKeeps(c: Config, log: Log, r: Req)
    requires ReqOk(c, log, r)
    ensures ReqOk(c, log, r.(cancelled := true))
  {
    var r' := r.(cancelled := true);
    forall res | Justified(c, log, r, res) ensures Justified(c, log, r', res) {
    }
  }

  /** The post-apply Get returns a generation no smaller than the one the request's own Patch produced. */
  lemma GetSeesPatch(log: Log, reconciled: set<nat>, r: Req)
    requires Lawful(log, reconciled) && Landed(log, r)
    ensures var got := Read(log, r.act.value.key);
            got.Some? && got.value.generation >= r.mark.value.gen
  {
    ReadLast(log, r.act.value.key);
    assert r.mark.value.at <= LatestAt(log, r.act.value.key);
  }

  lemma RefetchKeeps(c: Config, s: Sys, r: Req, err: Option<Executor.K8sErr>)
    requires Lawful(s.log, s.reconciled) && ReqOk(c, s.log, r) && r.pc.PatchReturned?
    ensures ReqOk(c, s.log, DoRefetch(s, r, err).req)
  {
    if err.Some? {
      RefusalKeeps(c, s.log, r, err.value);
    } else {
      GetSeesPatch(s.log, s.reconciled, r);
    }
  }

  lemma ObserveKeeps(c: Config, s: Sys, rid: nat, r: Req, move: Move)
    requires ReqOk(c, s.log, r) && r.act.Some? && (move.ObserveApply? || move.ObserveSync?)
    ensures ReqOk(c, s.log, DoExecute(c, s, rid, r, move).req)
  {
    if move.ObserveSync? && r.pc.Synced? {
      PassOn(c, s.log, r, r.pc.out, Finished(r.pc.out));
    } else if move.ObserveApply? && r.pc.ApplyFailed? {
      var res := Executor.ClassifyK8sErr(r.pc.err, r.act.value.key);
      PassOn(c, s.log, r, res, Finished(res));
    }
  }

  lemma TurnKeeps(c: Config, s: Sys, r: Req, a: Executor.Arm, pos: nat, from: nat)
    requires ReqOk(c, s.log, r) && r.pc.Watching? && pos <= |s.log|
    requires a.Event? && a.obj.Mapping? ==>
               from < |s.log| && a.obj.cr == s.log[from].cr && a.obj.cr.key.namespace == r.act.value.key.namespace
    ensures ReqOk(c, s.log, Turn(s, r, a, pos).req)
  {
    var r' := Turn(s, r, a, pos).req;
    if r'.pc.Synced? && a.Event? {
      assert s.log[from].cr.key == r.act.value.key;
      assert SawReady(s.log, r', s.log[from].cr.status.observedGeneration);
    }
  }

  lemma WaitMoveKeeps(c: Config, s: Sys, rid: nat, r: Req, move: Move)
    requires ReqOk(c, s.log, r) && r.act.Some?
    requires move.InitialGet? || move.OpenWatch? || move.Deliver? || move.Stray? || move.CloseWatch? || move.CtxDone?
    ensures ReqOk(c, s.log, DoExecute(c, s, rid, r, move).req)
  {
    if move.InitialGet? && r.pc.Waiting? {
      InitialGetKeeps(c, s, r, move.ok);
    } else if move.Deliver? && r.pc.Watching? {
      var n := NextVisible(s.log, r.pc.base, r.act.value.key.namespace, r.pc.pos);
      if n < |s.log| {
        TurnKeeps(c, s, r, Executor.Event(Mapping(s.log[n].cr)), n + 1, n);
      }
    } else if move.Stray? && r.pc.Watching? && !move.obj.Mapping? {
      TurnKeeps(c, s, r, Executor.Event(move.obj), r.pc.pos, 0);
    } else if r.pc.Watching? && (move.CloseWatch? || move.CtxDone?) {
      TurnKeeps(c, s, r, if move.CloseWatch? then Executor.Closed else Executor.Done, r.pc.pos, 0);
    }
  }

  lemma InitialGetKeeps(c: Config, s: Sys, r: Req, ok: bool)
    requires ReqOk(c, s.log, r) && r.pc.Waiting?
    ensures ReqOk(c, s.log, DoInitialGet(s, r, ok).req)
  {
    var r' := DoInitialGet(s, r, ok).req;
    ReadLast(s.log, r.act.value.key);
    if r'.pc.Synced? {
      assert SawReady(s.log, r', r'.pc.out.observedGeneration);
    }
  }

  predicate IsPatching(r: Req, move: Move) {
    move.Patch? && r.pc.Applying? && r.act.Some?
  }

  /** Only a Patch touches the log or sets a mark; `Execute` changes neither the input nor the action. */
  lemma ExecuteFrame(c: Config, s: Sys, rid: nat, r: Req, move: Move)
    requires r.act.Some?
    ensures var e := DoExecute(c, s, rid, r, move);
            && e.req.input == r.input && e.req.act == r.act
            && if IsPatching(r, move) then
                 e == DoPatch(s, rid, r, Executor.Prepared(r.act.value, move.stamp), move.reply)
               else e.log == s.log && e.req.mark == r.mark
  {
    if !move.Patch? {
      QuietFrame(c, s, rid, r, move);
    }
  }

  lemma QuietFrame(c: Config, s: Sys, rid: nat, r: Req, move: Move)
    requires r.act.Some? && !move.Patch?
    ensures var e := DoExecute(c, s, rid, r, move);
            e.req.input == r.input && e.req.act == r.act && e.log == s.log && e.req.mark == r.mark
  {
  }

  /** A request's input never changes, nor does its action once set. */
  lemma MoveFrame(c: Config, s: Sys, rid: nat, move: Move)
    requires rid < |s.reqs|
    ensures var r, e := s.reqs[rid], DoMove(c, s, rid, move);
            && e.req.input == r.input
            && (r.act.Some? && !r.pc.Verified? ==> e.req.act == r.act)
            && if IsPatching(r, move) then
                 e == DoPatch(s, rid, r, Executor.Prepared(r.act.value, move.stamp), move.reply)
               else e.log == s.log && e.req.mark == r.mark
  {
    if s.reqs[rid].act.Some? {
      ExecuteFrame(c, s, rid, s.reqs[rid], move);
    }
  }

  lemma MoveKeepsLog(c: Config, s: Sys, rid: nat, move: Move)
    requires Lawful(s.log, s.reconciled) && rid < |s.reqs|
    ensures Lawful(DoMove(c, s, rid, move).log, s.reconciled)
  {
    MoveFrame(c, s, rid, move);
    var r := s.reqs[rid];
    if move.Patch? && r.act.Some? {
      PatchIsLawful(s.log, s.reconciled, Executor.Prepared(r.act.value, move.stamp), Webhookd(rid));
    }
  }

  lemma MoveKeepsReq(c: Config, s: Sys, rid: nat, move: Move)
    requires Lawful(s.log, s.reconciled) && rid < |s.reqs| && ReqOk(c, s.log, s.reqs[rid])
    ensures var e := DoMove(c, s, rid, move);
            && s.log <= e.log && ReqOk(c, e.log, e.req)
            && (s.reqs[rid].act.Some? ==> e.req.act == s.reqs[rid].act)
            && forall i | |s.log| <= i < |e.log| :: e.log[i].writer == Webhookd(rid) && Wrote(e.req, e.log[i].cr)
  {
    MoveFrame(c, s, rid, move);
    var r := s.reqs[rid];
    if move.Patch? {
      if r.pc.Applying? && r.act.Some? {
        PatchKeeps(c, s, rid, r, Executor.Prepared(r.act.value, move.stamp), move.reply);
      }
    } else if move.Admit? || move.Decide? || move.Cancel? || move.Respond? {
      DispatcherMoveKeeps(c, s, rid, move);
    } else if r.act.Some? {
      if move.Refetch? {
        if r.pc.PatchReturned? {
          RefetchKeeps(c, s, r, move.err);
        }
      } else if move.ObserveApply? || move.ObserveSync? {
        ObserveKeeps(c, s, rid, r, move);
      } else {
        WaitMoveKeeps(c, s, rid, r, move);
      }
    }
  }

  lemma MoveKeeps(c: Config, s: Sys, rid: nat, move: Move)
    requires Inv(c, s) && rid < |s.reqs|
    ensures Inv(c, Do(c, s, Act(rid, move))) && s.log <= Do(c, s, Act(rid, move)).log
  {
    MoveKeepsLog(c, s, rid, move);
    MoveKeepsReq(c, s, rid, move);
    var e := DoMove(c, s, rid, move);
    ReqChanges(c, s, rid, e);
    assert Do(c, s, Act(rid, move)) == s.(reqs := s.reqs[rid := e.req], log := e.log, m := e.m);
  }

  lemma ReqChanges(c: Config, s: Sys, rid: nat, e: Effect)
    requires Inv(c, s) && rid < |s.reqs|
    requires s.log <= e.log && Lawful(e.log, s.reconciled) && ReqOk(c, e.log, e.req)
    requires s.reqs[rid].act.Some? ==> e.req.act == s.reqs[rid].act
    requires forall i | |s.log| <= i < |e.log| :: e.log[i].writer == Webhookd(rid) && Wrote(e.req, e.log[i].cr)
    ensures Inv(c, s.(reqs := s.reqs[rid := e.req], log := e.log, m := e.m))
  {
    var reqs' := s.reqs[rid := e.req];
    forall q | 0 <= q < |reqs'| ensures ReqOk(c, e.log, reqs'[q]) {
      if q != rid {
        ReqOkStays(c, s.log, e.log, s.reqs[q]);
      }
    }
    forall i | 0 <= i < |e.log| && e.log[i].writer.Webhookd?
      ensures e.log[i].writer.rid < |reqs'| && Wrote(reqs'[e.log[i].writer.rid], e.log[i].cr)
    {
      if i < |s.log| {
        assert e.log[i] == s.log[i];
      }
    }
  }

  lemma OthersWrite(c: Config, s: Sys, log: Log)
    requires Inv(c, s) && s.log <= log && Lawful(log, s.reconciled)
    requires forall i | |s.log| <= i < |log| :: !log[i].writer.Webhookd?
    ensures Inv(c, s.(log := log))
  {
    forall q | 0 <= q < |s.reqs| ensures ReqOk(c, log, s.reqs[q]) {
      ReqOkStays(c, s.log, log, s.reqs[q]);
    }
    forall i | 0 <= i < |log| && log[i].writer.Webhookd?
      ensures log[i].writer.rid < |s.reqs| && Wrote(s.reqs[log[i].writer.rid], log[i].cr)
    {
      assert log[i] == s.log[i];
    }
  }

  lemma ForeignWriteKeeps(c: Config, s: Sys, d: Desired)
    requires Inv(c, s)
    ensures Inv(c, s.(log := PatchLog(s.log, d, Foreign)))
  {
    PatchIsLawful(s.log, s.reconciled, d, Foreign);
    PatchLands(s.log, d, Foreign);
    OthersWrite(c, s, PatchLog(s.log, d, Foreign));
  }

  lemma WriteStatusKeeps(c: Config, s: Sys, i: nat, conditions: seq<Condition>)
    requires Inv(c, s) && i < |s.log| && (HasReady(conditions) ==> i in s.reconciled)
    ensures Inv(c, s.(log := StatusLog(s.log, i, conditions)))
  {
    StatusIsLawful(s.log, s.reconciled, i, conditions);
    OthersWrite(c, s, StatusLog(s.log, i, conditions));
  }

  lemma ReconcileKeeps(s: Sys, i: nat)
    requires Lawful(s.log, s.reconciled) && i < |s.log|
    ensures Lawful(s.log, s.reconciled + {i})
  {
    forall j | 0 <= j < |s.log| && HasReady(s.log[j].cr.status.conditions)
      ensures Reconciled(s.log, s.reconciled + {i}, s.log[j].cr.key, s.log[j].cr.status.observedGeneration)
    {
      ReconciledGrows(s.log, s.log, s.reconciled, s.reconciled + {i},
                      s.log[j].cr.key, s.log[j].cr.status.observedGeneration);
    }
  }

  /** Every step keeps the invariant, only extends the log and the set of reconciled versions,
      and never forgets a request or its input. */
  lemma StepKeeps(c: Config, s: Sys, step: Step)
    requires Inv(c, s)
    ensures Inv(c, Do(c, s, step))
    ensures s.log <= Do(c, s, step).log && s.reconciled <= Do(c, s, step).reconciled
  {
    match step
    case Act(rid, move) =>
      if rid < |s.reqs| {
        MoveKeeps(c, s, rid, move);
      }
    case WriteStatus(i, conditions) =>
      if i < |s.log| && (HasReady(conditions) ==> i in s.reconciled) {
        WriteStatusKeeps(c, s, i, conditions);
      }
    case ForeignWrite(d) => ForeignWriteKeeps(c, s, d);
    case Reconcile(i) =>
      if i < |s.log| {
        ReconcileKeeps(s, i);
      }
    case _ =>
  }

  lemma {:induction false} Always(c: Config, steps: seq<Step>)
    ensures Inv(c, Exec(c, steps))
  {
    if steps != [] {
      Always(c, steps[..|steps| - 1]);
      StepKeeps(c, Exec(c, steps[..|steps| - 1]), steps[|steps| - 1]);
    }
  }

  // ---- What the answers mean -----------------------------------------------

  function Answer(r: Req): Option<ExecResult> {
    if r.pc.Answered? then r.pc.body else None
  }

  /** The operator reconciled the request's own spec, or a version of the same object committed after the
      request's Patch took effect, and reported it Ready. */
  ghost predicate ReadyMeans(s: Sys, r: Req, observed: int, reported: nat, done: nat) {
    && Landed(s.log, r)
    && reported < |s.log| && done < |s.log| && done in s.reconciled
    && s.log[reported].cr.key == s.log[done].cr.key == r.act.value.key
    && HasReady(s.log[reported].cr.status.conditions)
    && s.log[reported].cr.status.observedGeneration == s.log[done].cr.generation == observed
    && r.mark.value.gen <= r.gen <= observed
    && (s.log[done].cr.spec == r.act.value.spec || done > r.mark.value.at)
    && ((forall i | r.mark.value.at <= i < |s.log| && s.log[i].cr.key == r.act.value.key ::
           s.log[i].cr.spec == r.act.value.spec)
        ==> s.log[done].cr.spec == r.act.value.spec)
  }

  lemma ReadyWitness(c: Config, s: Sys, r: Req, res: ExecResult) returns (reported: nat, done: nat)
    requires Lawful(s.log, s.reconciled) && ReqOk(c, s.log, r) && Justified(c, s.log, r, res) && res.kind == Ready
    ensures ReadyMeans(s, r, res.observedGeneration, reported, done)
  {
    var k := r.act.value.key;
    reported :| 0 <= reported < |s.log| && s.log[reported].cr.key == k && ReadyFor(s.log[reported].cr, r.gen)
                && s.log[reported].cr.status.observedGeneration == res.observedGeneration;
    assert Reconciled(s.log, s.reconciled, k, res.observedGeneration);
    done :| done in s.reconciled && done < |s.log| && s.log[done].cr.key == k
            && s.log[done].cr.generation == res.observedGeneration;
    var at := r.mark.value.at;
    if done < at {
      assert s.log[done].cr.generation <= s.log[at].cr.generation;
    }
  }

  /** Ready is sound over every run and every interleaving. */
  lemma ReadyIsSound(c: Config, steps: seq<Step>, rid: nat) returns (reported: nat, done: nat)
    requires rid < |Exec(c, steps).reqs|
    requires Answer(Exec(c, steps).reqs[rid]).Some? && Answer(Exec(c, steps).reqs[rid]).value.kind == Ready
    ensures ReadyMeans(Exec(c, steps), Exec(c, steps).reqs[rid],
                       Answer(Exec(c, steps).reqs[rid]).value.observedGeneration, reported, done)
  {
    Always(c, steps);
    var s := Exec(c, steps);
    reported, done := ReadyWitness(c, s, s.reqs[rid], Answer(s.reqs[rid]).value);
  }

  ghost predicate Untouched(s: Sys, rid: nat)
    requires rid < |s.reqs|
  {
    s.reqs[rid].mark.None? && forall i | 0 <= i < |s.log| :: s.log[i].writer != Webhookd(rid)
  }

  /** Which answers rule out a write, which ones prove it, and which ones name the object. */
  ghost predicate Framed(s: Sys, rid: nat)
    requires rid < |s.reqs| && s.reqs[rid].pc.Answered?
  {
    var r := s.reqs[rid];
    && (r.pc.status in {404, 413, 401, 400} ==> Untouched(s, rid))
    && (r.pc.status == 504 ==> Landed(s.log, r))
    && (r.pc.status in {200, 422, 500, 503, 504} <==> Answer(r).Some? && Answer(r).value.kind != BadRequest)
    && (r.pc.status == 200 ==>
          if Answer(r).value.kind == Noop then Untouched(s, rid) else Answer(r).value.kind == Ready && Landed(s.log, r))
    && (r.pc.status in {500, 503, 504} ==> r.act.Some? && Executor.Names(Answer(r).value, r.act.value.key))
    && (Answer(r).Some? ==> StatusFits(r.pc.status, Answer(r).value.kind))
  }

  /** The status of an answer with a body tells its kind, except that 200 stands for two. */
  predicate StatusFits(status: int, kind: ResultKind) {
    && (status == 200 <==> kind == Noop || kind == Ready)
    && (status == 400 <==> kind == BadRequest)
    && (status == 422 <==> kind == Unprocessable)
    && (status == 500 <==> kind == InternalError)
    && (status == 503 <==> kind == TransientFailure)
    && (status == 504 <==> kind == Timeout)
  }

  lemma InvFrames(c: Config, s: Sys, rid: nat)
    requires Inv(c, s) && rid < |s.reqs| && s.reqs[rid].pc.Answered?
    ensures Framed(s, rid)
  {
    var r := s.reqs[rid];
    assert ReqOk(c, s.log, r);
    if r.act.None? {
      forall i | 0 <= i < |s.log| ensures s.log[i].writer != Webhookd(rid) {
        assert s.log[i].writer.Webhookd? ==> Wrote(s.reqs[s.log[i].writer.rid], s.log[i].cr);
      }
    }
  }

  /** The outcome frame, over every run. */
  lemma OutcomeFrame(c: Config, steps: seq<Step>, rid: nat)
    requires rid < |Exec(c, steps).reqs| && Exec(c, steps).reqs[rid].pc.Answered?
    ensures Framed(Exec(c, steps), rid)
  {
    Always(c, steps);
    InvFrames(c, Exec(c, steps), rid);
  }

  /** `waitForSync` reports one of three kinds and the object's identity; the zero kind never escapes. */
  lemma WaitNeverReportsNoop(c: Config, steps: seq<Step>, rid: nat)
    requires rid < |Exec(c, steps).reqs| && Exec(c, steps).reqs[rid].pc.Synced?
    ensures var r := Exec(c, steps).reqs[rid];
            && r.pc.out.kind in {Ready, Timeout, TransientFailure}
            && r.act.Some? && Executor.Names(r.pc.out, r.act.value.key)
            && Landed(Exec(c, steps).log, r)
  {
    Always(c, steps);
  }

  /** Write provenance: every version webhookd wrote comes from an admitted request whose body asked for exactly it. */
  lemma WriteProvenance(c: Config, steps: seq<Step>, i: nat)
    requires i < |Exec(c, steps).log| && Exec(c, steps).log[i].writer.Webhookd?
    ensures var s := Exec(c, steps);
            var rid := s.log[i].writer.rid;
            && rid < |s.reqs| && Wrote(s.reqs[rid], s.log[i].cr)
            && c.admission(s.reqs[rid].input) == Pass
            && c.decision(s.reqs[rid].input) == Jsm.Apply(s.reqs[rid].act.value)
  {
    Always(c, steps);
  }

  /** Every spec the cluster ever held was put there by such a request or by a foreign writer, never by the operator. */
  lemma SpecsHaveWriters(c: Config, steps: seq<Step>, j: nat) returns (i: nat)
    requires j < |Exec(c, steps).log|
    ensures i <= j && var log := Exec(c, steps).log;
            log[i].cr.key == log[j].cr.key && log[i].cr.spec == log[j].cr.spec && !log[i].writer.Operator?
  {
    Always(c, steps);
    var log := Exec(c, steps).log;
    assert HasOrigin(log, j);
    i :| 0 <= i <= j && log[i].cr.key == log[j].cr.key && log[i].cr.spec == log[j].cr.spec && !log[i].writer.Operator?;
  }

  // ---- Nothing outside the schema is stored ------------------------------------

  /** The required members of the CRD are there and not empty. */
  ghost predicate Complete(spec: Spec) {
    && |spec.identityProviderId| >= 1 && |spec.providerGroupId| >= 1 && |spec.roleName| >= 1
    && |spec.projectNames| >= 1 && forall p <- spec.projectNames :: |p| >= 1
  }

  ghost predicate AllComplete(log: Log) {
    forall i | 0 <= i < |log| :: Complete(log[i].cr.spec)
  }

  lemma PatchStaysComplete(log: Log, d: Desired, writer: Writer)
    requires AllComplete(log) && FitsSchema(d.spec)
    ensures AllComplete(PatchLog(log, d, writer))
  {
    PatchLands(log, d, writer);
  }

  lemma StatusStaysComplete(log: Log, i: nat, conditions: seq<Condition>)
    requires AllComplete(log) && i < |log|
    ensures AllComplete(StatusLog(log, i, conditions))
  {
    ReadLast(log, log[i].cr.key);
  }

  lemma StepStaysComplete(c: Config, s: Sys, step: Step)
    requires AllComplete(s.log)
    ensures AllComplete(Do(c, s, step).log)
  {
    match step
    case Act(rid, move) =>
      if rid < |s.reqs| {
        MoveFrame(c, s, rid, move);
        if IsPatching(s.reqs[rid], move) && FitsSchema(s.reqs[rid].act.value.spec) {
          PatchStaysComplete(s.log, Executor.Prepared(s.reqs[rid].act.value, move.stamp), Webhookd(rid));
        }
      }
    case WriteStatus(i, conditions) =>
      if i < |s.log| {
        StatusStaysComplete(s.log, i, conditions);
      }
    case ForeignWrite(d) =>
      if FitsSchema(d.spec) {
        PatchStaysComplete(s.log, d, Foreign);
      }
    case _ =>
  }

  /** In every run every stored spec has all its required members. */
  lemma {:induction false} SpecsAreComplete(c: Config, steps: seq<Step>)
    ensures AllComplete(Exec(c, steps).log)
  {
    if steps != [] {
      SpecsAreComplete(c, steps[..|steps| - 1]);
      StepStaysComplete(c, Exec(c, steps[..|steps| - 1]), steps[|steps| - 1]);
    }
  }
}
