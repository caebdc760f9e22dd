/** A concrete run of the protocol that ends Ready through the watch, so that the theorems about Ready answers
    speak of something that happens. */
module Witness {
  import opened Basics
  import opened Resource
  import opened Results
  import opened Cluster
  import opened Protocol
  import Executor
  import Jsm
  import Safety

  /** Three more steps of a run. */
  lemma Extend(c: Config, steps: seq<Step>, x: Step, y: Step, z: Step) returns (steps': seq<Step>)
    ensures Exec(c, steps') == Do(c, Do(c, Do(c, Exec(c, steps), x), y), z)
  {
    ExecSnoc(c, steps, x);
    ExecSnoc(c, steps + [x], y);
    ExecSnoc(c, steps + [x] + [y], z);
    steps' := steps + [x] + [y] + [z];
  }

  /** The object as the first request's Patch creates it on an empty cluster. */
  function FirstObject(act: Jsm.Action, stamp: Executor.Stamp): CustomResource {
    Patched(None, Executor.Prepared(act, stamp))
  }

  const READY_TRUE := [Condition(READY, TRUE)]

  function Reported(cr: CustomResource): CustomResource {
    cr.(status := Status(1, READY_TRUE))
  }

  /** The one request, at `pc`, with what it has seen. */
  function Only(c: Config, x: Input, act: Jsm.Action, pc: PC, initial: Option<Payload>, watchOk: bool,
                arms: seq<Executor.Arm>, waited: Option<ExecResult>): seq<Req>
  {
    [Req(x, pc, Some(act), 1, c.syncTimeout, false, Some(Mark(0, 1)), initial, watchOk, arms, waited, None)]
  }

  ghost predicate CanApply(c: Config, x: Input, act: Jsm.Action) {
    c.admission(x) == Pass && c.decision(x) == Jsm.Apply(act) && FitsSchema(act.spec)
  }

  lemma Begins(c: Config, x: Input, act: Jsm.Action, stamp: Executor.Stamp) returns (steps: seq<Step>)
    requires CanApply(c, x, act)
    ensures var s := Exec(c, steps);
            && s.log == [Version(FirstObject(act, stamp), Webhookd(0))] && s.reconciled == {}
            && s.reqs == Only(c, x, act, Waiting, None, false, [], None)
  {
    steps := Extend(c, [], Arrive(x), Act(0, Admit), Act(0, Decide));
    var s := Exec(c, steps);
    assert s.reqs == [Req(x, Applying, Some(act), 0, 0, false, None, None, false, [], None, None)];
    steps := Extend(c, steps, Act(0, Patch(stamp, Acked)), Act(0, Refetch(None)), Act(0, ObserveApply));
    PatchLands(s.log, Executor.Prepared(act, stamp), Webhookd(0));
    var s1 := Do(c, s, Act(0, Patch(stamp, Acked)));
    assert s1.log == [Version(FirstObject(act, stamp), Webhookd(0))];
    assert s1.reqs == [Req(x, PatchReturned, Some(act), 0, 0, false, Some(Mark(0, 1)), None, false, [], None, None)];
    assert Read(s1.log, act.key) == Some(FirstObject(act, stamp));
    var s2 := Do(c, s1, Act(0, Refetch(None)));
    assert s2.reqs == [Req(x, Applied, Some(act), 1, 0, false, Some(Mark(0, 1)), None, false, [], None, None)];
  }

  lemma Watches(c: Config, x: Input, act: Jsm.Action, stamp: Executor.Stamp) returns (steps: seq<Step>)
    requires CanApply(c, x, act)
    ensures var s, cr := Exec(c, steps), FirstObject(act, stamp);
            && s.log == [Version(cr, Webhookd(0))] && s.reconciled == {0}
            && s.reqs == Only(c, x, act, Watching(1, 0), Some(Mapping(cr)), true, [], None)
  {
    steps := Begins(c, x, act, stamp);
    var s, cr := Exec(c, steps), FirstObject(act, stamp);
    steps := Extend(c, steps, Act(0, InitialGet(true)), Act(0, OpenWatch(true)), Reconcile(0));
    assert Read(s.log, act.key) == Some(cr);
    var s1 := Do(c, s, Act(0, InitialGet(true)));
    assert s1.reqs == Only(c, x, act, Unwatched, Some(Mapping(cr)), false, [], None);
    var s2 := Do(c, s1, Act(0, OpenWatch(true)));
    assert s2.reqs == Only(c, x, act, Watching(1, 0), Some(Mapping(cr)), true, [], None);
  }

  lemma OperatorReports(log: Log, cr: CustomResource, writer: Writer)
    requires log == [Version(cr, writer)] && cr.generation == 1 && cr.status == Status(0, [])
    ensures StatusLog(log, 0, READY_TRUE) == [Version(cr, writer), Version(Reported(cr), Operator)]
    ensures ReadyFor(Reported(cr), 1)
  {
    assert Read(log, cr.key) == Some(cr);
    assert READY_TRUE[0] == Condition(READY, TRUE);
  }

  /** The watch opened on the first version shows it, and then the operator's report. */
  lemma Shows(log: Log, cr: CustomResource)
    requires log == [Version(cr, Webhookd(0)), Version(Reported(cr), Operator)]
    ensures NextVisible(log, 1, cr.key.namespace, 0) == 0 && NextVisible(log, 1, cr.key.namespace, 1) == 1
  {
    assert log[..1] == [Version(cr, Webhookd(0))];
    assert LatestAt(log[..1], cr.key) == 0;
    assert Visible(log, 1, cr.key.namespace, 0) && Visible(log, 1, cr.key.namespace, 1);
  }

  lemma DeliversOld(c: Config, x: Input, act: Jsm.Action, s: Sys, cr: CustomResource)
    requires s.log == [Version(cr, Webhookd(0)), Version(Reported(cr), Operator)]
    requires cr.key == act.key && cr.status == Status(0, [])
    requires s.reqs == Only(c, x, act, Watching(1, 0), Some(Mapping(cr)), true, [], None)
    ensures var s' := Do(c, s, Act(0, Deliver));
            && s'.log == s.log
            && s'.reqs == Only(c, x, act, Watching(1, 1), Some(Mapping(cr)), true, [Executor.Event(Mapping(cr))], None)
  {
    Shows(s.log, cr);
    var a := Executor.Event(Mapping(cr));
    assert !Executor.Decisive(act.key, 1, a);
    assert DoMove(c, s, 0, Deliver) == Turn(s, s.reqs[0], a, 1);
    assert [] + [a] == [a];
  }

  lemma DeliversReady(c: Config, x: Input, act: Jsm.Action, s: Sys, cr: CustomResource)
    requires s.log == [Version(cr, Webhookd(0)), Version(Reported(cr), Operator)]
    requires cr.key == act.key && ReadyFor(Reported(cr), 1)
    requires s.reqs == Only(c, x, act, Watching(1, 1), Some(Mapping(cr)), true, [Executor.Event(Mapping(cr))], None)
    ensures var r := Do(c, s, Act(0, Deliver)).reqs;
            |r| == 1 && r[0].input == x && r[0].act.Some? && r[0].pc.Synced? && r[0].pc.out.kind == Ready
            && |r[0].arms| == 2
  {
    Shows(s.log, cr);
    var a := Executor.Event(Mapping(Reported(cr)));
    assert Executor.Decisive(act.key, 1, a);
    assert DoMove(c, s, 0, Deliver) == Turn(s, s.reqs[0], a, 2);
  }

  /** The operator reconciles, the watch first shows the old version and then the ready one. */
  lemma Synchronizes(c: Config, x: Input, act: Jsm.Action, stamp: Executor.Stamp) returns (steps: seq<Step>)
    requires CanApply(c, x, act)
    ensures var r := Exec(c, steps).reqs;
            |r| == 1 && r[0].input == x && r[0].act.Some? && r[0].pc.Synced? && r[0].pc.out.kind == Ready
            && |r[0].arms| == 2
  {
    steps := Watches(c, x, act, stamp);
    var s, cr := Exec(c, steps), FirstObject(act, stamp);
    OperatorReports(s.log, cr, Webhookd(0));
    steps := Extend(c, steps, WriteStatus(0, READY_TRUE), Act(0, Deliver), Act(0, Deliver));
    var s1 := Do(c, s, WriteStatus(0, READY_TRUE));
    assert s1 == s.(log := StatusLog(s.log, 0, READY_TRUE));
    DeliversOld(c, x, act, s1, cr);
    DeliversReady(c, x, act, Do(c, s1, Act(0, Deliver)), cr);
  }

  lemma Observes(c: Config, s: Sys)
    requires |s.reqs| == 1 && s.reqs[0].act.Some? && s.reqs[0].pc.Synced?
    ensures Do(c, s, Act(0, ObserveSync)).reqs == [s.reqs[0].(pc := Finished(s.reqs[0].pc.out))]
  {
  }

  lemma Responds(c: Config, s: Sys)
    requires |s.reqs| == 1 && s.reqs[0].pc.Finished?
    ensures Do(c, s, Act(0, Respond)).reqs
         == [s.reqs[0].(pc := Answered(HTTPStatus(s.reqs[0].pc.res.kind), Some(s.reqs[0].pc.res)))]
  {
  }

  /** Every request that can be applied at all has a run that answers it Ready, through the watch. */
  lemma ReadyIsReachable(c: Config, x: Input, act: Jsm.Action, stamp: Executor.Stamp) returns (steps: seq<Step>)
    requires CanApply(c, x, act)
    ensures var r := Exec(c, steps).reqs;
            && |r| == 1 && r[0].input == x && |r[0].arms| == 2
            && r[0].pc.Answered? && r[0].pc.status == 200
            && Safety.Answer(r[0]).Some? && Safety.Answer(r[0]).value.kind == Ready
  {
    steps := Synchronizes(c, x, act, stamp);
    Observes(c, Exec(c, steps));
    Responds(c, Do(c, Exec(c, steps), Act(0, ObserveSync)));
    steps := Extend(c, steps, Act(0, ObserveSync), Act(0, Respond), Tick);
  }
}
