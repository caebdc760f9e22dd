/** Waiting for the operator inside the protocol: the select loop sees every version it needs, returns what
    `Executor.WaitForSync` computes from what it saw, and ends. */
module Waits {
  import opened Basics
  import opened Resource
  import opened Results
  import opened Cluster
  import opened Protocol
  import Executor
  import Safety

  predicate BeforeWait(pc: PC) {
    pc.Received? || pc.Verified? || pc.Applying? || pc.PatchReturned? || pc.ApplyFailed? || pc.Applied? || pc.Waiting?
  }

  predicate InWait(pc: PC) {
    pc.Waiting? || pc.Unwatched? || pc.Watching?
  }

  ghost predicate Reports(r: Req, out: Option<ExecResult>)
    requires r.act.Some?
  {
    Executor.WaitedFor(r.act.value.key, r.gen, r.initial, r.watchOk, r.arms, out)
  }

  /** No event the loop has consumed showed the request's object ready. */
  ghost predicate NothingReadyPassed(log: Log, r: Req)
    requires r.act.Some? && r.pc.Watching? && r.pc.base <= |log| && r.pc.pos <= |log|
  {
    forall i: nat | i < r.pc.pos && Visible(log, r.pc.base, r.act.value.key.namespace, i)
                    && log[i].cr.key == r.act.value.key :: !ReadyFor(log[i].cr, r.gen)
  }

  ghost predicate WaitOk(log: Log, r: Req) {
    && (BeforeWait(r.pc) ==> r.initial.None? && !r.watchOk && r.arms == [] && r.waited.None?)
    && (r.pc.Unwatched? ==> r.act.Some? && !r.watchOk && r.arms == [] && r.waited.None?
                            && !Executor.SaysReady(r.initial, r.gen))
    && (r.pc.Watching? ==> r.act.Some? && r.watchOk && r.waited.None? && r.pc.base <= |log| && r.pc.pos <= |log|
                           && NothingReadyPassed(log, r) && Reports(r, None))
    && (r.pc.Synced? ==> r.waited == Some(r.pc.out))
    && (r.waited.Some? ==> r.act.Some? && Reports(r, r.waited))
    && (r.watchOk ==> r.pc.Watching? || r.waited.Some?)
  }

  lemma WaitOkStays(log: Log, log': Log, r: Req)
    requires log <= log' && WaitOk(log, r)
    ensures WaitOk(log', r)
  {
    if r.pc.Watching? {
      var k := r.act.value.key;
      forall i: nat | i < r.pc.pos && Visible(log', r.pc.base, k.namespace, i) && log'[i].cr.key == k
        ensures !ReadyFor(log'[i].cr, r.gen)
      {
        VisibleStays(log, log', r.pc.base, k.namespace, i);
      }
    }
  }

  /** One more arm: the report changes exactly when the arm is decisive. */
  lemma NextArm(r: Req, a: Executor.Arm)
    requires r.act.Some? && r.watchOk && Reports(r, None)
    ensures var k := r.act.value.key;
            Reports(r.(arms := r.arms + [a]),
                    if Executor.Decisive(k, r.gen, a) then Some(Executor.Verdict(k, r.gen, a)) else None)
  {
    var k, arms := r.act.value.key, r.arms + [a];
    assert forall i | 0 <= i < |r.arms| :: arms[i] == r.arms[i];
    if Executor.Decisive(k, r.gen, a) {
      assert arms[|r.arms|] == a;
    }
  }

  lemma TurnKeeps(s: Sys, r: Req, a: Executor.Arm, pos: nat)
    requires WaitOk(s.log, r) && r.pc.Watching? && r.pc.pos <= pos <= |s.log|
    requires forall i: nat | r.pc.pos <= i < pos && Visible(s.log, r.pc.base, r.act.value.key.namespace, i)
                             && s.log[i].cr.key == r.act.value.key :: a == Executor.Event(Mapping(s.log[i].cr))
    ensures WaitOk(s.log, Turn(s, r, a, pos).req)
  {
    NextArm(r, a);
    var r' := Turn(s, r, a, pos).req;
    if r'.pc.Watching? {
      forall i: nat | i < pos && Visible(s.log, r.pc.base, r.act.value.key.namespace, i)
                      && s.log[i].cr.key == r.act.value.key
        ensures !ReadyFor(s.log[i].cr, r.gen)
      {
        assert i >= r.pc.pos ==> a == Executor.Event(Mapping(s.log[i].cr));
      }
    }
  }

  lemma DeliverKeeps(s: Sys, r: Req)
    requires WaitOk(s.log, r) && r.pc.Watching?
    ensures WaitOk(s.log, DoDeliver(s, r).req)
  {
    var n := NextVisible(s.log, r.pc.base, r.act.value.key.namespace, r.pc.pos);
    if n < |s.log| {
      TurnKeeps(s, r, Executor.Event(Mapping(s.log[n].cr)), n + 1);
    }
  }

  lemma ExecuteKeeps(c: Config, s: Sys, rid: nat, r: Req, move: Move)
    requires WaitOk(s.log, r) && r.act.Some? && !move.Patch?
    ensures WaitOk(s.log, DoExecute(c, s, rid, r, move).req)
  {
    match move
    case Deliver =>
      if r.pc.Watching? {
        DeliverKeeps(s, r);
      }
    case Stray(obj) =>
      if r.pc.Watching? && !obj.Mapping? {
        TurnKeeps(s, r, Executor.Event(obj), r.pc.pos);
      }
    case CloseWatch =>
      if r.pc.Watching? {
        TurnKeeps(s, r, Executor.Closed, r.pc.pos);
      }
    case CtxDone =>
      if r.pc.Watching? {
        TurnKeeps(s, r, Executor.Done, r.pc.pos);
      }
    case _ =>
  }

  lemma DispatcherMoveKeeps(c: Config, s: Sys, rid: nat, move: Move)
    requires rid < |s.reqs| && WaitOk(s.log, s.reqs[rid])
    requires move.Admit? || move.Decide? || move.Cancel? || move.Respond? || s.reqs[rid].act.None?
    ensures DoMove(c, s, rid, move).log == s.log && WaitOk(s.log, DoMove(c, s, rid, move).req)
  {
  }

  lemma PatchKeeps(s: Sys, rid: nat, r: Req, d: Desired, reply: PatchReply)
    requires WaitOk(s.log, r) && r.pc.Applying?
    ensures s.log <= DoPatch(s, rid, r, d, reply).log
    ensures WaitOk(DoPatch(s, rid, r, d, reply).log, DoPatch(s, rid, r, d, reply).req)
  {
  }

  lemma MoveKeeps(c: Config, s: Sys, rid: nat, move: Move)
    requires rid < |s.reqs| && WaitOk(s.log, s.reqs[rid])
    ensures s.log <= DoMove(c, s, rid, move).log
    ensures WaitOk(DoMove(c, s, rid, move).log, DoMove(c, s, rid, move).req)
  {
    var r := s.reqs[rid];
    Safety.MoveFrame(c, s, rid, move);
    if move.Admit? || move.Decide? || move.Cancel? || move.Respond? || r.act.None? {
      DispatcherMoveKeeps(c, s, rid, move);
    } else if Safety.IsPatching(r, move) {
      PatchKeeps(s, rid, r, Executor.Prepared(r.act.value, move.stamp), move.reply);
    } else if !move.Patch? {
      ExecuteKeeps(c, s, rid, r, move);
    }
  }

  ghost predicate AllWaitOk(s: Sys) {
    forall rid | 0 <= rid < |s.reqs| :: WaitOk(s.log, s.reqs[rid])
  }

  lemma StepKeeps(c: Config, s: Sys, step: Step)
    requires AllWaitOk(s)
    ensures AllWaitOk(Do(c, s, step))
  {
    var s' := Do(c, s, step);
    if step.Act? && step.rid < |s.reqs| {
      MoveKeeps(c, s, step.rid, step.move);
    }
    assert s.log <= s'.log;
    forall q | 0 <= q < |s'.reqs| ensures WaitOk(s'.log, s'.reqs[q]) {
      if q < |s.reqs| && !(step.Act? && step.rid == q) {
        WaitOkStays(s.log, s'.log, s.reqs[q]);
      }
    }
  }

  lemma {:induction false} Always(c: Config, steps: seq<Step>)
    ensures AllWaitOk(Exec(c, steps))
  {
    if steps != [] {
      Always(c, steps[..|steps| - 1]);
      StepKeeps(c, Exec(c, steps[..|steps| - 1]), steps[|steps| - 1]);
    }
  }

  // ---- The protocol refines the sequential wait -----------------------------

  /** In every interleaving, what a request's wait returned is what `WaitForSync` computes from what it saw:
      its first read, whether the watch opened, and the arms its select took. */
  lemma WaitRefinesSequential(c: Config, steps: seq<Step>, rid: nat)
    requires rid < |Exec(c, steps).reqs|
    ensures var r := Exec(c, steps).reqs[rid];
            && (r.waited.Some? || r.pc.Watching? ==> r.act.Some? && Reports(r, r.waited))
            && (r.pc.Synced? ==> r.waited == Some(r.pc.out))
  {
    Always(c, steps);
    assert WaitOk(Exec(c, steps).log, Exec(c, steps).reqs[rid]);
  }

  /** A first read that succeeds sees the object as it is now: the wait returns Ready at once if it is ready for the
      applied generation, and opens its watch if it is not. */
  lemma FirstReadDecides(c: Config, steps: seq<Step>, rid: nat)
    requires rid < |Exec(c, steps).reqs| && Exec(c, steps).reqs[rid].pc.Waiting?
    ensures var s, s' := Exec(c, steps), Exec(c, steps + [Act(rid, InitialGet(true))]);
            && s.reqs[rid].act.Some? && rid < |s'.reqs|
            && var now := Read(s.log, s.reqs[rid].act.value.key);
               && now.Some? && s'.reqs[rid].initial == Some(Mapping(now.value))
               && (s'.reqs[rid].waited.Some? <==> ReadyFor(now.value, s.reqs[rid].gen))
               && (s'.reqs[rid].waited.Some? ==>
                     && s'.reqs[rid].waited.value.kind == Ready
                     && s'.reqs[rid].waited.value.observedGeneration == now.value.status.observedGeneration)
               && (s'.reqs[rid].waited.None? ==> s'.reqs[rid].pc.Unwatched?)
  {
    var s := Exec(c, steps);
    Always(c, steps);
    Safety.Always(c, steps);
    assert WaitOk(s.log, s.reqs[rid]) && Safety.ReqOk(c, s.log, s.reqs[rid]);
    Safety.GetSeesPatch(s.log, s.reconciled, s.reqs[rid]);
    ExecSnoc(c, steps, Act(rid, InitialGet(true)));
  }

  // ---- No readiness is missed -----------------------------------------------

  /** The select was ended from outside: the context, a closed channel, or a watch that never opened. */
  predicate Interrupts(step: Step, rid: nat) {
    step.Act? && step.rid == rid
    && (step.move.CtxDone? || step.move.CloseWatch? || step.move == OpenWatch(false))
  }

  /** The request's wait has not returned anything but Ready, unless a step from `from` on interrupted it. */
  ghost predicate ReadyUnlessInterrupted(steps: seq<Step>, from: nat, s: Sys, rid: nat) {
    rid < |s.reqs| && s.reqs[rid].waited.Some? && s.reqs[rid].waited.value.kind != Ready ==>
      exists i :: from <= i < |steps| && Interrupts(steps[i], rid)
  }

  lemma UninterruptedMove(c: Config, s: Sys, rid: nat, move: Move)
    requires rid < |s.reqs| && !Interrupts(Act(rid, move), rid)
    ensures var r, r' := s.reqs[rid], DoMove(c, s, rid, move).req;
            r'.waited == r.waited || (r'.waited.Some? && r'.waited.value.kind == Ready)
  {
  }

  lemma {:induction false} WaitEndsReady(c: Config, steps: seq<Step>, from: nat, rid: nat)
    requires from <= |steps|
    requires rid < |Exec(c, steps[..from]).reqs| ==> Exec(c, steps[..from]).reqs[rid].waited.None?
    ensures ReadyUnlessInterrupted(steps, from, Exec(c, steps), rid)
  {
    if from == |steps| {
      assert steps[..from] == steps;
    } else {
      var before, step := steps[..|steps| - 1], steps[|steps| - 1];
      var s := Exec(c, before);
      assert before[..from] == steps[..from];
      WaitEndsReady(c, before, from, rid);
      if i :| from <= i < |before| && Interrupts(before[i], rid) {
        assert steps[i] == before[i];
      } else if step.Act? && step.rid == rid && rid < |s.reqs| && !Interrupts(step, rid) {
        UninterruptedMove(c, s, rid, step.move);
      }
    }
  }

  /** The watch has no queued event left. */
  predicate CaughtUp(log: Log, r: Req)
    requires r.act.Some? && r.pc.Watching? && r.pc.base <= |log| && r.pc.pos <= |log|
  {
    NextVisible(log, r.pc.base, r.act.value.key.namespace, r.pc.pos) == |log|
  }

  /** A loop that has caught up is still waiting only because its object is not ready now: whatever became ready
      before the first read, between that read and the watch, or later, has been seen. */
  lemma CaughtUpMeansNotReady(c: Config, steps: seq<Step>, rid: nat)
    requires rid < |Exec(c, steps).reqs| && Exec(c, steps).reqs[rid].pc.Watching?
    ensures var s, r := Exec(c, steps), Exec(c, steps).reqs[rid];
            && r.act.Some? && r.pc.base <= |s.log| && r.pc.pos <= |s.log|
            && (CaughtUp(s.log, r) ==>
                  var now := Read(s.log, r.act.value.key); now.None? || !ReadyFor(now.value, r.gen))
  {
    Always(c, steps);
    var s := Exec(c, steps);
    var r := s.reqs[rid];
    assert WaitOk(s.log, r);
    var k := r.act.value.key;
    if CaughtUp(s.log, r) && LatestAt(s.log, k) >= 0 {
      CurrentIsVisible(s.log, r.pc.base, k);
    }
  }

  /** No missed readiness: in every run that never interrupts a request's wait, once the request has read or
      opened its watch, its events are delivered and its object is ready at the applied generation,
      the wait has returned Ready. */
  lemma NoMissedReadiness(c: Config, steps: seq<Step>, rid: nat)
    requires rid < |Exec(c, steps).reqs|
    requires forall i | 0 <= i < |steps| :: !Interrupts(steps[i], rid)
    requires var r := Exec(c, steps).reqs[rid]; r.watchOk || r.waited.Some?
    requires var s, r := Exec(c, steps), Exec(c, steps).reqs[rid];
             r.pc.Watching? && r.act.Some? && r.pc.base <= |s.log| && r.pc.pos <= |s.log| ==>
               CaughtUp(s.log, r) && Read(s.log, r.act.value.key).Some?
               && ReadyFor(Read(s.log, r.act.value.key).value, r.gen)
    ensures var r := Exec(c, steps).reqs[rid]; r.waited.Some? && r.waited.value.kind == Ready
  {
    Always(c, steps);
    assert WaitOk(Exec(c, steps).log, Exec(c, steps).reqs[rid]);
    if Exec(c, steps).reqs[rid].pc.Watching? {
      CaughtUpMeansNotReady(c, steps, rid);
    }
    assert steps[..0] == [];
    WaitEndsReady(c, steps, 0, rid);
  }

  // ---- The wait moves forward ------------------------------------------------

  /** How far a wait has come: its first read, its watch, its end. */
  function Stage(r: Req): nat {
    if r.waited.Some? then 3 else if r.pc.Watching? then 2 else if r.pc.Unwatched? then 1 else 0
  }

  predicate Entered(r: Req) {
    InWait(r.pc) || r.waited.Some?
  }

  /** A wait never goes back: not to an earlier stage, not to an event it has consumed. */
  ghost predicate Advances(r: Req, r': Req) {
    && Entered(r') && Stage(r') >= Stage(r) && r'.act == r.act && r'.gen == r.gen && (r.cancelled ==> r'.cancelled)
    && (r.pc.Watching? && r'.waited.None? ==>
          r'.pc.Watching? && r'.pc.base == r.pc.base && r'.pc.pos >= r.pc.pos)
  }

  /** What one move of its own does for the wait. */
  ghost predicate Served(s: Sys, r: Req, r': Req, move: Move) {
    && (move.InitialGet? ==> Stage(r') >= 1)
    && (move.OpenWatch? && Stage(r) >= 1 ==> Stage(r') >= 2)
    && (move.CtxDone? && Stage(r) >= 2 && (r.cancelled || s.now >= r.deadline) ==> r'.waited.Some?)
  }

  lemma WaitMoveAdvances(c: Config, s: Sys, rid: nat, r: Req, move: Move)
    requires r.act.Some? && WaitOk(s.log, r) && Entered(r)
    ensures var r' := DoExecute(c, s, rid, r, move).req; Advances(r, r') && Served(s, r, r', move)
  {
  }

  lemma MoveAdvances(c: Config, s: Sys, rid: nat, move: Move)
    requires rid < |s.reqs| && s.reqs[rid].act.Some? && WaitOk(s.log, s.reqs[rid]) && Entered(s.reqs[rid])
    ensures var r, r' := s.reqs[rid], DoMove(c, s, rid, move).req; Advances(r, r') && Served(s, r, r', move)
  {
    WaitMoveAdvances(c, s, rid, s.reqs[rid], move);
  }

  // ---- Readiness is delivered --------------------------------------------------

  /** How many of the steps deliver an event to the request. */
  function Delivers(steps: seq<Step>, rid: nat): nat {
    if steps == [] then 0
    else Delivers(steps[..|steps| - 1], rid) + (if steps[|steps| - 1] == Act(rid, Deliver) then 1 else 0)
  }

  /** A watching request has an event queued, at `j`, that shows its object ready. */
  ghost predicate Queued(s: Sys, rid: nat, j: nat) {
    && rid < |s.reqs| && s.reqs[rid].pc.Watching? && s.reqs[rid].act.Some?
    && s.reqs[rid].pc.base <= |s.log| && s.reqs[rid].pc.pos <= j < |s.log|
    && var k := s.reqs[rid].act.value.key;
       Visible(s.log, s.reqs[rid].pc.base, k.namespace, j) && s.log[j].cr.key == k
       && ReadyFor(s.log[j].cr, s.reqs[rid].gen)
  }

  /** A delivery to a request with such an event takes one event off its queue or ends its wait. */
  lemma DeliveryConsumes(c: Config, s: Sys, rid: nat, j: nat)
    requires Queued(s, rid, j) && WaitOk(s.log, s.reqs[rid])
    ensures var r, r' := s.reqs[rid], DoMove(c, s, rid, Deliver).req;
            r'.waited.Some? || (r'.pc.Watching? && r'.pc.pos > r.pc.pos)
  {
  }

  /** A loop still waiting has not passed the event. */
  lemma NotPassed(log: Log, log': Log, r: Req, j: nat)
    requires log <= log' && r.act.Some? && r.pc.Watching? && r.pc.base <= |log| && j < |log| && WaitOk(log', r)
    requires var k := r.act.value.key;
             Visible(log, r.pc.base, k.namespace, j) && log[j].cr.key == k && ReadyFor(log[j].cr, r.gen)
    ensures r.pc.pos <= j && Visible(log', r.pc.base, r.act.value.key.namespace, j)
  {
    VisibleStays(log, log', r.pc.base, r.act.value.key.namespace, j);
  }

  lemma LogGrows(c: Config, s: Sys, step: Step)
    requires AllWaitOk(s)
    ensures s.log <= Do(c, s, step).log
  {
    if step.Act? && step.rid < |s.reqs| {
      MoveKeeps(c, s, step.rid, step.move);
    }
  }

  /** Any step leaves such an event queued, each delivery to the request bringing it closer, or ends the wait. */
  lemma QueuedStep(c: Config, s: Sys, rid: nat, j: nat, step: Step, s': Sys)
    requires AllWaitOk(s) && AllWaitOk(s') && Queued(s, rid, j) && s' == Do(c, s, step)
    ensures rid < |s'.reqs|
    ensures s'.reqs[rid].waited.None? ==>
              && Queued(s', rid, j)
              && s'.reqs[rid].pc.pos >= s.reqs[rid].pc.pos + (if step == Act(rid, Deliver) then 1 else 0)
  {
    LogGrows(c, s, step);
    if step.Act? && step.rid == rid {
      MoveAdvances(c, s, rid, step.move);
      if step.move.Deliver? {
        DeliveryConsumes(c, s, rid, j);
      }
    }
    var r' := s'.reqs[rid];
    assert WaitOk(s'.log, r');
    if r'.waited.None? {
      NotPassed(s.log, s'.log, r', j);
    }
  }

  lemma EndedStep(c: Config, s: Sys, rid: nat, step: Step)
    requires AllWaitOk(s) && rid < |s.reqs| && s.reqs[rid].waited.Some?
    ensures var s' := Do(c, s, step); rid < |s'.reqs| && s'.reqs[rid].waited.Some?
  {
    if step.Act? && step.rid == rid {
      MoveAdvances(c, s, rid, step.move);
    }
  }

  /** The wait has ended, or the event is still queued and the deliveries so far have brought it closer. */
  ghost predicate Closing(s: Sys, rid: nat, j: nat, pos: nat) {
    rid < |s.reqs| && (s.reqs[rid].waited.Some? || (Queued(s, rid, j) && s.reqs[rid].pc.pos >= pos))
  }

  lemma ClosingStep(c: Config, s: Sys, rid: nat, j: nat, pos: nat, step: Step, s': Sys)
    requires AllWaitOk(s) && Closing(s, rid, j, pos) && s' == Do(c, s, step)
    ensures AllWaitOk(s') && Closing(s', rid, j, pos + (if step == Act(rid, Deliver) then 1 else 0))
  {
    StepKeeps(c, s, step);
    if s.reqs[rid].waited.Some? {
      EndedStep(c, s, rid, step);
    } else {
      QueuedStep(c, s, rid, j, step, s');
    }
  }

  lemma {:induction false} ClosingStays(c: Config, s: Sys, rid: nat, j: nat, pos: nat, more: seq<Step>)
    requires AllWaitOk(s) && Closing(s, rid, j, pos)
    ensures AllWaitOk(Further(c, s, more)) && Closing(Further(c, s, more), rid, j, pos + Delivers(more, rid))
  {
    if more != [] {
      var front, last := more[..|more| - 1], more[|more| - 1];
      ClosingStays(c, s, rid, j, pos, front);
      ClosingStep(c, Further(c, s, front), rid, j, pos + Delivers(front, rid), last, Further(c, s, more));
    }
  }

  /** The wait has returned, and returned Ready unless one of the steps `more` interrupted it. */
  ghost predicate Returns(s: Sys, rid: nat, more: seq<Step>) {
    && rid < |s.reqs| && s.reqs[rid].waited.Some?
    && (s.reqs[rid].waited.value.kind == Ready || exists i :: 0 <= i < |more| && Interrupts(more[i], rid))
  }

  /** Readiness is delivered: from every reachable state in which an event showing a request's object ready is on its
      watch, any continuation with enough deliveries to the request, interleaved with anything at all, ends its wait,
      and ends it Ready unless the continuation interrupts it. */
  lemma ReadyIsDelivered(c: Config, steps: seq<Step>, rid: nat, j: nat, more: seq<Step>)
    requires Queued(Exec(c, steps), rid, j) && Delivers(more, rid) > j - Exec(c, steps).reqs[rid].pc.pos
    ensures Returns(Exec(c, steps + more), rid, more)
  {
    Always(c, steps);
    assert WaitOk(Exec(c, steps).log, Exec(c, steps).reqs[rid]);
    ExecFurther(c, steps, more);
    ClosingStays(c, Exec(c, steps), rid, j, Exec(c, steps).reqs[rid].pc.pos, more);
    assert (steps + more)[..|steps|] == steps;
    WaitEndsReady(c, steps + more, |steps|, rid);
    if i :| |steps| <= i < |steps + more| && Interrupts((steps + more)[i], rid) {
      assert more[i - |steps|] == (steps + more)[i];
    }
  }

  /** In particular an object that is ready now is on the watch, so as many deliveries as the watch is behind
      suffice. */
  lemma ReadyNowIsDelivered(c: Config, steps: seq<Step>, rid: nat, more: seq<Step>)
    requires rid < |Exec(c, steps).reqs| && Exec(c, steps).reqs[rid].pc.Watching? && Exec(c, steps).reqs[rid].act.Some?
    requires var now := Read(Exec(c, steps).log, Exec(c, steps).reqs[rid].act.value.key);
             now.Some? && ReadyFor(now.value, Exec(c, steps).reqs[rid].gen)
    requires Exec(c, steps).reqs[rid].pc.pos + Delivers(more, rid) >= |Exec(c, steps).log|
    ensures Returns(Exec(c, steps + more), rid, more)
  {
    Always(c, steps);
    var s := Exec(c, steps);
    var r := s.reqs[rid];
    assert WaitOk(s.log, r);
    var j := LatestAt(s.log, r.act.value.key);
    CurrentIsVisible(s.log, r.pc.base, r.act.value.key);
    ReadyIsDelivered(c, steps, rid, j, more);
  }

  // ---- The wait ends ---------------------------------------------------------

  function Ticks(steps: seq<Step>): nat {
    if steps == [] then 0 else Ticks(steps[..|steps| - 1]) + (if steps[|steps| - 1].Tick? then 1 else 0)
  }

  /** While a request waits, its deadline is fixed and at most the sync timeout away. */
  ghost predicate DeadlineSet(s: Sys, rid: nat, deadline: nat) {
    && rid < |s.reqs|
    && (InWait(s.reqs[rid].pc) || !BeforeWait(s.reqs[rid].pc))
    && (InWait(s.reqs[rid].pc) ==> s.reqs[rid].deadline == deadline)
  }

  /** A request enters its wait once, with a fresh deadline, and keeps that deadline. */
  ghost predicate DeadlineRule(c: Config, now: nat, r: Req, r': Req) {
    if InWait(r.pc) then r'.deadline == r.deadline && (InWait(r'.pc) || r'.pc.Synced?)
    else if BeforeWait(r.pc) then InWait(r'.pc) ==> r'.deadline == now + c.syncTimeout
    else !BeforeWait(r'.pc) && !InWait(r'.pc)
  }

  predicate ApplyMove(move: Move) {
    move.Patch? || move.Refetch? || move.ObserveApply? || move.ObserveSync?
  }

  lemma ApplySetsDeadline(c: Config, s: Sys, rid: nat, r: Req, move: Move)
    requires r.act.Some? && ApplyMove(move)
    ensures DeadlineRule(c, s.now, r, DoExecute(c, s, rid, r, move).req)
  {
  }

  lemma WaitKeepsDeadline(c: Config, s: Sys, rid: nat, r: Req, move: Move)
    requires r.act.Some? && !ApplyMove(move)
    ensures DeadlineRule(c, s.now, r, DoExecute(c, s, rid, r, move).req)
  {
  }

  lemma ExecuteSetsDeadline(c: Config, s: Sys, rid: nat, r: Req, move: Move)
    requires r.act.Some?
    ensures DeadlineRule(c, s.now, r, DoExecute(c, s, rid, r, move).req)
  {
    if ApplyMove(move) {
      ApplySetsDeadline(c, s, rid, r, move);
    } else {
      WaitKeepsDeadline(c, s, rid, r, move);
    }
  }

  lemma MoveSetsDeadline(c: Config, s: Sys, rid: nat, move: Move)
    requires rid < |s.reqs|
    ensures DeadlineRule(c, s.now, s.reqs[rid], DoMove(c, s, rid, move).req)
  {
    if s.reqs[rid].act.Some? {
      ExecuteSetsDeadline(c, s, rid, s.reqs[rid], move);
    }
  }

  lemma DeadlineStep(c: Config, s: Sys, rid: nat, deadline: nat, step: Step)
    requires DeadlineSet(s, rid, deadline)
    ensures DeadlineSet(Do(c, s, step), rid, deadline)
    ensures Do(c, s, step).now == s.now + (if step.Tick? then 1 else 0)
  {
    if step.Act? && step.rid == rid {
      MoveSetsDeadline(c, s, rid, step.move);
    }
  }

  ghost predicate Near(c: Config, s: Sys) {
    forall q | 0 <= q < |s.reqs| && InWait(s.reqs[q].pc) :: s.reqs[q].deadline <= s.now + c.syncTimeout
  }

  lemma NearStep(c: Config, s: Sys, step: Step)
    requires Near(c, s)
    ensures Near(c, Do(c, s, step))
  {
    if step.Act? && step.rid < |s.reqs| {
      MoveSetsDeadline(c, s, step.rid, step.move);
    }
  }

  lemma {:induction false} AlwaysNear(c: Config, steps: seq<Step>)
    ensures Near(c, Exec(c, steps))
  {
    if steps != [] {
      AlwaysNear(c, steps[..|steps| - 1]);
      NearStep(c, Exec(c, steps[..|steps| - 1]), steps[|steps| - 1]);
    }
  }

  /** A wait at a stage stays at or past it. */
  ghost predicate AtStage(s: Sys, rid: nat, n: nat) {
    rid < |s.reqs| && s.reqs[rid].act.Some? && Entered(s.reqs[rid]) && Stage(s.reqs[rid]) >= n
  }

  /** The move that takes a wait to stage `n`: the first read, the watch, the look at the context. */
  predicate Raises(step: Step, rid: nat, n: nat) {
    && step.Act? && step.rid == rid
    && (n == 1 ==> step.move.InitialGet?)
    && (n == 2 ==> step.move.OpenWatch?)
    && (n == 3 ==> step.move.CtxDone?)
  }

  /** The steps cancel the request or move the clock by the sync timeout. */
  predicate ContextEnds(c: Config, steps: seq<Step>, rid: nat) {
    Ticks(steps) >= c.syncTimeout || Act(rid, Cancel) in steps
  }

  /** How many of its three moves the request takes in order among the steps, the last once its context has ended. */
  function Progress(c: Config, steps: seq<Step>, rid: nat): (p: nat)
    ensures p <= 3
  {
    if steps == [] then 0
    else
      var front := steps[..|steps| - 1];
      var p := Progress(c, front, rid);
      if p < 3 && Raises(steps[|steps| - 1], rid, p + 1) && (p == 2 ==> ContextEnds(c, front, rid)) then p + 1 else p
  }

  /** The context of a waiting request is done: cancelled, or past its deadline. */
  ghost predicate ContextDone(s: Sys, rid: nat) {
    rid < |s.reqs| && (s.reqs[rid].waited.Some? || s.reqs[rid].cancelled || s.now >= s.reqs[rid].deadline)
  }

  /** One step of a wait: it stays where it is, moves on with its next move, and stays cancelled. */
  lemma StageStep(c: Config, s: Sys, rid: nat, n: nat, step: Step, s': Sys)
    requires AllWaitOk(s) && AtStage(s, rid, n) && s' == Do(c, s, step)
    ensures AtStage(s', rid, n)
    ensures n < 3 && Raises(step, rid, n + 1) && (n == 2 ==> ContextDone(s, rid)) ==> AtStage(s', rid, n + 1)
    ensures s.reqs[rid].cancelled || step == Act(rid, Cancel) ==> s'.reqs[rid].cancelled
  {
    if step.Act? && step.rid == rid {
      MoveAdvances(c, s, rid, step.move);
    }
  }

  /** The wait has come as far as the steps since `start` took it, its deadline still set. */
  ghost predicate Followed(c: Config, s: Sys, rid: nat, start: nat, deadline: nat, steps: seq<Step>) {
    && AtStage(s, rid, Progress(c, steps, rid)) && (Act(rid, Cancel) in steps ==> s.reqs[rid].cancelled)
    && DeadlineSet(s, rid, deadline) && s.now == start + Ticks(steps) && deadline <= start + c.syncTimeout
  }

  lemma FollowedStep(c: Config, s: Sys, rid: nat, start: nat, deadline: nat, steps: seq<Step>, step: Step, s': Sys)
    requires AllWaitOk(s) && Followed(c, s, rid, start, deadline, steps) && s' == Do(c, s, step)
    ensures AllWaitOk(s') && Followed(c, s', rid, start, deadline, steps + [step])
  {
    StepKeeps(c, s, step);
    StageStep(c, s, rid, Progress(c, steps, rid), step, s');
    DeadlineStep(c, s, rid, deadline, step);
    assert (steps + [step])[..|steps|] == steps;
  }

  lemma {:induction false} StageFollowsProgress(c: Config, s: Sys, rid: nat, start: nat, deadline: nat, more: seq<Step>)
    requires AllWaitOk(s) && Followed(c, s, rid, start, deadline, [])
    ensures AllWaitOk(Further(c, s, more)) && Followed(c, Further(c, s, more), rid, start, deadline, more)
  {
    if more != [] {
      var front, last := more[..|more| - 1], more[|more| - 1];
      StageFollowsProgress(c, s, rid, start, deadline, front);
      FollowedStep(c, Further(c, s, front), rid, start, deadline, front, last, Further(c, s, more));
      assert more == front + [last];
    }
  }

  lemma WaitingHasAction(c: Config, steps: seq<Step>, rid: nat)
    requires rid < |Exec(c, steps).reqs| && InWait(Exec(c, steps).reqs[rid].pc)
    ensures AtStage(Exec(c, steps), rid, 0)
  {
    Safety.Always(c, steps);
    assert Safety.ReqOk(c, Exec(c, steps).log, Exec(c, steps).reqs[rid]);
  }

  /** The wait ends: from every reachable state in which a request waits, any continuation, whatever else it holds, in
      which the request takes its first read, then its watch, then a look at its context once that is cancelled or the
      clock has moved by the sync timeout, leaves its wait returned. */
  lemma WaitEnds(c: Config, steps: seq<Step>, rid: nat, more: seq<Step>)
    requires rid < |Exec(c, steps).reqs| && InWait(Exec(c, steps).reqs[rid].pc) && Progress(c, more, rid) == 3
    ensures var s := Exec(c, steps + more); rid < |s.reqs| && s.reqs[rid].waited.Some?
  {
    WaitingHasAction(c, steps, rid);
    AlwaysNear(c, steps);
    Always(c, steps);
    ExecFurther(c, steps, more);
    StageFollowsProgress(c, Exec(c, steps), rid, Exec(c, steps).now, Exec(c, steps).reqs[rid].deadline, more);
  }

  lemma {:induction false} ProgressGrows(c: Config, steps: seq<Step>, rid: nat, n: nat)
    requires n <= |steps|
    ensures Progress(c, steps[..n], rid) <= Progress(c, steps, rid)
  {
    if n == |steps| {
      assert steps[..n] == steps;
    } else {
      assert steps[..|steps| - 1][..n] == steps[..n];
      ProgressGrows(c, steps[..|steps| - 1], rid, n);
    }
  }

  /** The next move in order, anywhere after `from`. */
  lemma ProgressAt(c: Config, steps: seq<Step>, rid: nat, from: nat, i: nat, n: nat)
    requires from <= i < |steps| && 1 <= n <= 3 && Progress(c, steps[..from], rid) >= n - 1
    requires Raises(steps[i], rid, n) && (n == 3 ==> ContextEnds(c, steps[..i], rid))
    ensures Progress(c, steps[..i + 1], rid) >= n
  {
    assert steps[..i][..from] == steps[..from];
    ProgressGrows(c, steps[..i], rid, from);
    assert steps[..i + 1][..i] == steps[..i];
  }

  /** A continuation with those moves in it, in that order and the context ended before the last, makes that
      progress. */
  lemma InOrderIsProgress(c: Config, more: seq<Step>, rid: nat, i: nat, j: nat, k: nat)
    requires i < j < k < |more| && Raises(more[i], rid, 1) && Raises(more[j], rid, 2) && Raises(more[k], rid, 3)
    requires ContextEnds(c, more[..k], rid)
    ensures Progress(c, more, rid) == 3
  {
    ProgressAt(c, more, rid, 0, i, 1);
    ProgressAt(c, more, rid, i + 1, j, 2);
    ProgressAt(c, more, rid, j + 1, k, 3);
    ProgressGrows(c, more, rid, k + 1);
  }

  // ---- A timeout is earned ------------------------------------------------------

  /** A wait that reported Timeout was cancelled from outside or has reached its deadline. */
  ghost predicate Earned(s: Sys, r: Req) {
    r.waited.Some? && r.waited.value.kind == Timeout ==> r.cancelled || s.now >= r.deadline
  }

  lemma ExecuteEarns(c: Config, s: Sys, rid: nat, r: Req, move: Move)
    requires r.act.Some? && WaitOk(s.log, r) && Earned(s, r)
    ensures Earned(s, DoExecute(c, s, rid, r, move).req)
  {
  }

  lemma MoveEarns(c: Config, s: Sys, rid: nat, move: Move)
    requires rid < |s.reqs| && WaitOk(s.log, s.reqs[rid]) && Earned(s, s.reqs[rid])
    ensures Earned(s, DoMove(c, s, rid, move).req)
  {
    if s.reqs[rid].act.Some? {
      ExecuteEarns(c, s, rid, s.reqs[rid], move);
    }
  }

  ghost predicate AllEarned(s: Sys) {
    forall rid | 0 <= rid < |s.reqs| :: Earned(s, s.reqs[rid])
  }

  lemma StepEarns(c: Config, s: Sys, step: Step)
    requires AllWaitOk(s) && AllEarned(s)
    ensures AllEarned(Do(c, s, step))
  {
    if step.Act? && step.rid < |s.reqs| {
      MoveEarns(c, s, step.rid, step.move);
    }
    var s' := Do(c, s, step);
    forall q | 0 <= q < |s'.reqs| ensures Earned(s', s'.reqs[q]) {
      assert q < |s.reqs| ==> Earned(s, s.reqs[q]);
    }
  }

  /** In every run a Timeout means cancellation or a passed deadline, and `MoveSetsDeadline` fixes that deadline to
      the moment the wait began plus the sync timeout. */
  lemma {:induction false} TimeoutIsEarned(c: Config, steps: seq<Step>)
    ensures AllEarned(Exec(c, steps))
  {
    if steps != [] {
      TimeoutIsEarned(c, steps[..|steps| - 1]);
      Always(c, steps[..|steps| - 1]);
      StepEarns(c, Exec(c, steps[..|steps| - 1]), steps[|steps| - 1]);
    }
  }
}
