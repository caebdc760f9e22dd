/** The executor's own steps: stamping the object, classifying API errors and waiting for readiness
    (internal/webhook/executor.go). Time, the API server's replies and the select's choices are parameters. */
module Executor {
  import opened Basics
  import opened Resource
  import opened Results
  import Cluster
  import Jsm

  const LABEL_MANAGED_BY := "webhookd.io/managed-by"
  const LABEL_SOURCE := "webhookd.io/source"
  const ANNOTATION_TRACE_ID := "webhookd.io/trace-id"
  const ANNOTATION_REQUEST_ID := "webhookd.io/request-id"
  const ANNOTATION_APPLIED := "webhookd.io/applied-at"

  /** The per-request values behind the executor's annotations; empty ids are not stamped. */
  datatype Stamp = Stamp(appliedAt: string, requestId: string, traceId: string)

  function SystemLabels(source: string): map<string, string> {
    map[LABEL_MANAGED_BY := "webhookd", LABEL_SOURCE := source]
  }

  function SystemAnnotations(s: Stamp): map<string, string> {
    map[ANNOTATION_APPLIED := s.appliedAt]
    + (if s.requestId != "" then map[ANNOTATION_REQUEST_ID := s.requestId] else map[])
    + (if s.traceId != "" then map[ANNOTATION_TRACE_ID := s.traceId] else map[])
  }

  /** Exactly which annotations a stamp gives, each from its own value. */
  lemma StampsAre(s: Stamp, k: string)
    ensures k in SystemAnnotations(s) <==>
            || k == "webhookd.io/applied-at"
            || (k == "webhookd.io/request-id" && s.requestId != "")
            || (k == "webhookd.io/trace-id" && s.traceId != "")
    ensures k in SystemAnnotations(s) ==>
            SystemAnnotations(s)[k] == if k == "webhookd.io/applied-at" then s.appliedAt
                                       else if k == "webhookd.io/request-id" then s.requestId else s.traceId
  {
    assert "webhookd.io/applied-at" != "webhookd.io/request-id" by {
      assert "webhookd.io/applied-at"[12] != "webhookd.io/request-id"[12];
    }
    assert |"webhookd.io/trace-id"| == 20 && |"webhookd.io/applied-at"| == 22 && |"webhookd.io/request-id"| == 22;
  }

  /** What `apply` sends for the JSM provider, whose object starts without labels and annotations. */
  function Prepared(act: Jsm.Action, s: Stamp): Cluster.Desired {
    Cluster.Desired(act.key, SystemLabels(act.source), act.annotations + SystemAnnotations(s), act.spec)
  }

  /** `high` wins every key it has and `low` keeps the others. */
  ghost predicate Layered(low: map<string, string>, high: map<string, string>, merged: map<string, string>) {
    && merged.Keys == low.Keys + high.Keys
    && (forall k <- high :: merged[k] == high[k])
    && (forall k <- low :: k !in high ==> merged[k] == low[k])
  }

  datatype K8sErr =
    | Forbidden | Invalid | ServerTimeout | ServiceUnavailable | TooManyRequests | Conflict | Unclassified

  function Outcome(kind: ResultKind, key: Key, observed: int): ExecResult {
    ExecResult(kind, key.name, key.namespace, observed)
  }

  predicate Names(res: ExecResult, key: Key) {
    res.crName == key.name && res.namespace == key.namespace
  }

  function ClassifyK8sErr(e: K8sErr, key: Key): ExecResult {
    match e
    case Forbidden => Outcome(InternalError, key, 0)
    case Invalid => Outcome(Unprocessable, key, 0)
    case ServerTimeout | ServiceUnavailable | TooManyRequests | Conflict => Outcome(TransientFailure, key, 0)
    case Unclassified => Outcome(InternalError, key, 0)
  }

  datatype ApplyLabel = LabelError | LabelCreated | LabelUpdated

  function ApplyOutcome(generation: int): ApplyLabel {
    if generation == 0 then LabelError else if generation == 1 then LabelCreated else LabelUpdated
  }

  /** The in-memory object that `apply` stamps, sends and then overwrites with the server's copy. */
  class Object {
    var cr: CustomResource

    constructor (cr: CustomResource)
      ensures this.cr == cr
    {
      this.cr := cr;
    }

    /** `apply`: `patchErr` and `got` are the API server's replies; `sent` is what the Patch carried. */
    method Apply(act: Jsm.Action, s: Stamp, patchErr: Option<K8sErr>, got: Jsm.Result<CustomResource, K8sErr>)
      returns (sent: Cluster.Desired, err: Option<K8sErr>)
      requires cr.key == act.key && cr.spec == act.spec
      modifies this
      ensures sent.key == act.key && sent.spec == act.spec
      ensures Layered(old(cr).labels, SystemLabels(act.source), sent.labels)
      ensures Layered(old(cr).annotations + act.annotations, SystemAnnotations(s), sent.annotations)
      ensures old(cr).labels == map[] && old(cr).annotations == map[] ==> sent == Prepared(act, s)
      ensures err.None? <==> patchErr.None? && got.Ok?
      ensures err.None? ==> cr == got.value
      ensures err.Some? ==> err == (if patchErr.Some? then patchErr else Some(got.error))
      ensures err.Some? ==> cr == old(cr).(labels := sent.labels, annotations := sent.annotations)
    {
      cr := cr.(labels := cr.labels + SystemLabels(act.source));
      cr := cr.(annotations := cr.annotations + act.annotations + SystemAnnotations(s));
      sent := Cluster.Desired(cr.key, cr.labels, cr.annotations, cr.spec);
      if patchErr.Some? {
        return sent, patchErr;
      }
      if got.Err? {
        return sent, Some(got.error);
      }
      cr := got.value;
      err := None;
    }
  }

  // ---- Waiting for the operator -------------------------------------------

  /** What one turn of the select can bring: the context is done, the channel is closed, or an event. */
  datatype Arm = Done | Closed | Event(obj: Payload)

  function NameOf(obj: Payload): Option<string> {
    match obj
    case NotAnObject => None
    case OtherKind(n) => Some(n)
    case Mapping(cr) => Some(cr.key.name)
  }

  /** The arm ends the loop; every other event is skipped. */
  predicate Decisive(key: Key, applyGen: int, a: Arm) {
    a.Event? ==> NameOf(a.obj) == Some(key.name) && IsReady(a.obj, applyGen).0
  }

  function Verdict(key: Key, applyGen: int, a: Arm): ExecResult
    requires Decisive(key, applyGen, a)
  {
    match a
    case Done => Outcome(Timeout, key, 0)
    case Closed => Outcome(TransientFailure, key, 0)
    case Event(obj) => Outcome(Ready, key, IsReady(obj, applyGen).1)
  }

  predicate SaysReady(obj: Option<Payload>, applyGen: int) {
    obj.Some? && IsReady(obj.value, applyGen).0
  }

  /** The arm that ends the loop: the context is done, the channel is closed, or an event shows the named resource
      ready. */
  predicate Ends(key: Key, applyGen: int, a: Arm) {
    || a.Done? || a.Closed?
    || (a.Event? && a.obj.Mapping? && a.obj.cr.key.name == key.name && ReadyFor(a.obj.cr, applyGen))
  }

  /** The first arm that ends the loop. */
  function EndingArm(key: Key, applyGen: int, arms: seq<Arm>): Option<Arm> {
    if arms == [] then None
    else if Ends(key, applyGen, arms[0]) then Some(arms[0])
    else EndingArm(key, applyGen, arms[1..])
  }

  lemma {:induction false} EndingArmAt(key: Key, applyGen: int, arms: seq<Arm>, n: nat)
    requires n <= |arms| && forall i | 0 <= i < n :: !Ends(key, applyGen, arms[i])
    ensures EndingArm(key, applyGen, arms) ==
            if n == |arms| then None
            else if Ends(key, applyGen, arms[n]) then Some(arms[n])
            else EndingArm(key, applyGen, arms[n + 1..])
  {
    if n > 0 {
      assert n < |arms| ==> arms[1..][n - 1] == arms[n] && arms[1..][n - 1 + 1..] == arms[n + 1..];
      EndingArmAt(key, applyGen, arms[1..], n - 1);
    }
  }

  predicate ReadFirst(initial: Option<Payload>, applyGen: int) {
    initial.Some? && initial.value.Mapping? && ReadyFor(initial.value.cr, applyGen)
  }

  /** Which kind the wait reports: Ready on a ready first read or event, TransientFailure when the watch fails to open
      or its channel closes, Timeout when the context ends first; nothing as long as none of these has happened. */
  function KindOf(key: Key, applyGen: int, initial: Option<Payload>, watchOk: bool, arms: seq<Arm>): Option<ResultKind>
  {
    if ReadFirst(initial, applyGen) then Some(Ready)
    else if !watchOk then Some(TransientFailure)
    else
      match EndingArm(key, applyGen, arms)
      case None => None
      case Some(Event(_)) => Some(Ready)
      case Some(Closed) => Some(TransientFailure)
      case Some(Done) => Some(Timeout)
  }

  function Kind(out: Option<ExecResult>): Option<ResultKind> {
    if out.None? then None else Some(out.value.kind)
  }

  /** What the wait must report: nothing while no arm was decisive; else a ready first read wins,
      then a failed watch, then the first decisive arm. */
  ghost predicate WaitedFor(key: Key, applyGen: int, initial: Option<Payload>, watchOk: bool, arms: seq<Arm>,
                            out: Option<ExecResult>)
  {
    if SaysReady(initial, applyGen) then out == Some(Outcome(Ready, key, IsReady(initial.value, applyGen).1))
    else if !watchOk then out == Some(Outcome(TransientFailure, key, 0))
    else if out.None? then forall i | 0 <= i < |arms| :: !Decisive(key, applyGen, arms[i])
    else
      exists n :: 0 <= n < |arms|
               && Decisive(key, applyGen, arms[n]) && out.value == Verdict(key, applyGen, arms[n])
               && forall i | 0 <= i < n :: !Decisive(key, applyGen, arms[i])
  }

  /** `waitForSync`; None when the arms run out and the select would still block. */
  method WaitForSync(key: Key, applyGen: int, initial: Option<Payload>, watchOk: bool, arms: seq<Arm>)
    returns (out: Option<ExecResult>)
    ensures WaitedFor(key, applyGen, initial, watchOk, arms, out)
    ensures Kind(out) == KindOf(key, applyGen, initial, watchOk, arms)
    ensures out.Some? ==> out.value.kind in {Ready, Timeout, TransientFailure} && Names(out.value, key)
    ensures out.Some? && out.value.kind == Ready ==> out.value.observedGeneration >= applyGen
  {
    var base := Outcome(Noop, key, 0);
    if initial.Some? {
      var (ready, observed) := IsReady(initial.value, applyGen);
      if ready {
        return Some(base.(kind := Ready, observedGeneration := observed));
      }
    }
    if !watchOk {
      return Some(base.(kind := TransientFailure));
    }
    var n := 0;
    while n < |arms|
      invariant 0 <= n <= |arms|
      invariant forall i | 0 <= i < n :: !Decisive(key, applyGen, arms[i])
      invariant EndingArm(key, applyGen, arms) == EndingArm(key, applyGen, arms[n..])
    {
      assert arms[n..][0] == arms[n] && arms[n..][1..] == arms[n + 1..];
      match arms[n] {
        case Done =>
          return Some(base.(kind := Timeout));
        case Closed =>
          return Some(base.(kind := TransientFailure));
        case Event(obj) =>
          if NameOf(obj) == Some(key.name) {
            var (ready, observed) := IsReady(obj, applyGen);
            if ready {
              return Some(base.(kind := Ready, observedGeneration := observed));
            }
          }
      }
      n := n + 1;
    }
    out := None;
  }

  /** The wait reports one thing: any two correct reports agree. */
  lemma WaitIsDetermined(key: Key, applyGen: int, initial: Option<Payload>, watchOk: bool, arms: seq<Arm>,
                         a: Option<ExecResult>, b: Option<ExecResult>)
    requires WaitedFor(key, applyGen, initial, watchOk, arms, a)
    requires WaitedFor(key, applyGen, initial, watchOk, arms, b)
    ensures a == b
  {
  }

  /** The report tells what the wait met, kind by kind. */
  lemma WaitTellsKind(key: Key, applyGen: int, initial: Option<Payload>, watchOk: bool, arms: seq<Arm>,
                      out: Option<ExecResult>)
    requires WaitedFor(key, applyGen, initial, watchOk, arms, out)
    ensures Kind(out) == KindOf(key, applyGen, initial, watchOk, arms)
    ensures out.Some? ==> out.value.crName == key.name && out.value.namespace == key.namespace
  {
    assert forall i | 0 <= i < |arms| :: Decisive(key, applyGen, arms[i]) == Ends(key, applyGen, arms[i]);
    if !SaysReady(initial, applyGen) && watchOk {
      if out.None? {
        EndingArmAt(key, applyGen, arms, |arms|);
      } else {
        var n :| 0 <= n < |arms|
              && Decisive(key, applyGen, arms[n]) && out.value == Verdict(key, applyGen, arms[n])
              && forall i | 0 <= i < n :: !Decisive(key, applyGen, arms[i]);
        EndingArmAt(key, applyGen, arms, n);
      }
    }
  }
}
