/** The Kubernetes API server as webhookd sees it: an append-only log of object versions.
    Reads return the latest version, a generation rises only with a spec change, and nothing is deleted. */
module Cluster {
  import opened Basics
  import opened Resource

  datatype Writer = Webhookd(rid: nat) | Operator | Foreign
  datatype Version = Version(cr: CustomResource, writer: Writer)
  type Log = seq<Version>

  /** The fields a server-side apply sends. */
  datatype Desired = Desired(key: Key, labels: map<string, string>, annotations: map<string, string>, spec: Spec)

  /** Index of the current version of an object, or -1. */
  function LatestAt(log: Log, k: Key): (i: int)
    ensures -1 <= i < |log|
    ensures i >= 0 ==> log[i].cr.key == k
    ensures forall j | i < j < |log| :: log[j].cr.key != k
  {
    if log == [] then -1
    else if log[|log| - 1].cr.key == k then |log| - 1
    else LatestAt(log[..|log| - 1], k)
  }

  /** A linearizable Get. */
  function Read(log: Log, k: Key): (r: Option<CustomResource>)
    ensures r.Some? ==> r.value.key == k
  {
    var i := LatestAt(log, k);
    if i < 0 then None else Some(log[i].cr)
  }

  /** Writing back an identical object makes no new version. */
  function Commit(log: Log, cr: CustomResource, writer: Writer): (r: Log)
    ensures log <= r
    ensures Read(r, cr.key) == Some(cr)
    ensures forall k | k != cr.key :: Read(r, k) == Read(log, k)
  {
    if Read(log, cr.key) == Some(cr) then log
    else
      var r := log + [Version(cr, writer)];
      assert r[..|r| - 1] == log;
      r
  }

  /** Server-side apply: creates at generation 1, or replaces the spec and metadata and keeps the status. */
  function Patched(prior: Option<CustomResource>, d: Desired): CustomResource {
    match prior
    case None => CustomResource(d.key, d.labels, d.annotations, d.spec, 1, Status(0, []))
    case Some(o) =>
      CustomResource(d.key, d.labels, d.annotations, d.spec,
               if o.spec == d.spec then o.generation else o.generation + 1, o.status)
  }

  // ---- What every log keeps -------------------------------------------------

  /** The operator has reconciled some version of `k` at generation `g`. */
  ghost predicate Reconciled(log: Log, reconciled: set<nat>, k: Key, g: int) {
    exists i :: i in reconciled && i < |log| && log[i].cr.key == k && log[i].cr.generation == g
  }

  ghost predicate Ordered(log: Log) {
    forall i, j | 0 <= i < j < |log| && log[i].cr.key == log[j].cr.key ::
      && log[i].cr.generation <= log[j].cr.generation
      && (log[i].cr.generation == log[j].cr.generation ==> log[i].cr.spec == log[j].cr.spec)
  }

  ghost predicate Honest(log: Log, reconciled: set<nat>) {
    forall j | 0 <= j < |log| && HasReady(log[j].cr.status.conditions) ::
      Reconciled(log, reconciled, log[j].cr.key, log[j].cr.status.observedGeneration)
  }

  /** Some version at or before `j` put this spec there, and it was not the operator. */
  ghost predicate HasOrigin(log: Log, j: int)
    requires 0 <= j < |log|
  {
    exists i :: 0 <= i <= j && log[i].cr.key == log[j].cr.key && log[i].cr.spec == log[j].cr.spec
             && !log[i].writer.Operator?
  }

  ghost predicate Lawful(log: Log, reconciled: set<nat>) {
    && (forall i | 0 <= i < |log| :: log[i].cr.generation >= 1)
    && Ordered(log)
    && Honest(log, reconciled)
    && (forall j | 0 <= j < |log| :: HasOrigin(log, j))
    && (forall i | i in reconciled :: i < |log|)
  }

  /** What a writer may commit on top of a lawful log. */
  ghost predicate MayFollow(log: Log, reconciled: set<nat>, cr: CustomResource, writer: Writer) {
    && cr.generation >= 1
    && (HasReady(cr.status.conditions) ==> Reconciled(log, reconciled, cr.key, cr.status.observedGeneration))
    && match Read(log, cr.key)
       case None => !writer.Operator?
       case Some(o) =>
         && o.generation <= cr.generation
         && (o.generation == cr.generation ==> o.spec == cr.spec)
         && (writer.Operator? ==> o.spec == cr.spec)
  }

  lemma ReadLast(log: Log, k: Key)
    ensures Read(log, k).Some? ==> LatestAt(log, k) >= 0 && log[LatestAt(log, k)].cr == Read(log, k).value
    ensures Read(log, k).None? ==> forall i | 0 <= i < |log| :: log[i].cr.key != k
  {
  }

  lemma OrderedAfter(log: Log, cr: CustomResource, writer: Writer)
    requires Ordered(log)
    requires Read(log, cr.key).Some? ==>
               && Read(log, cr.key).value.generation <= cr.generation
               && (Read(log, cr.key).value.generation == cr.generation ==> Read(log, cr.key).value.spec == cr.spec)
    ensures Ordered(log + [Version(cr, writer)])
  {
    var at := LatestAt(log, cr.key);
    var log' := log + [Version(cr, writer)];
    forall i, j | 0 <= i < j < |log'| && log'[i].cr.key == log'[j].cr.key
      ensures log'[i].cr.generation <= log'[j].cr.generation
      ensures log'[i].cr.generation == log'[j].cr.generation ==> log'[i].cr.spec == log'[j].cr.spec
    {
      if j == |log| {
        assert i <= at;
        assert i < at ==> log[i].cr.generation <= log[at].cr.generation;
      }
    }
  }

  lemma ReconciledGrows(log: Log, log': Log, reconciled: set<nat>, reconciled': set<nat>, k: Key, g: int)
    requires log <= log' && reconciled <= reconciled'
    requires Reconciled(log, reconciled, k, g)
    ensures Reconciled(log', reconciled', k, g)
  {
    var i :| i in reconciled && i < |log| && log[i].cr.key == k && log[i].cr.generation == g;
    assert log'[i] == log[i];
  }

  lemma CommitIsLawful(log: Log, reconciled: set<nat>, cr: CustomResource, writer: Writer)
    requires Lawful(log, reconciled) && MayFollow(log, reconciled, cr, writer)
    ensures Lawful(Commit(log, cr, writer), reconciled)
  {
    var log' := log + [Version(cr, writer)];
    OrderedAfter(log, cr, writer);
    forall j | 0 <= j < |log'| && HasReady(log'[j].cr.status.conditions)
      ensures Reconciled(log', reconciled, log'[j].cr.key, log'[j].cr.status.observedGeneration)
    {
      ReconciledGrows(log, log', reconciled, reconciled, log'[j].cr.key, log'[j].cr.status.observedGeneration);
    }
    forall j | 0 <= j < |log'| ensures HasOrigin(log', j) {
      var k := if j < |log| then j else LatestAt(log, cr.key);
      if j == |log| && !writer.Operator? {
        assert log'[j].cr.spec == cr.spec;
      } else {
        ReadLast(log, cr.key);
        assert HasOrigin(log, k);
        var i :| 0 <= i <= k && log[i].cr.key == log[k].cr.key && log[i].cr.spec == log[k].cr.spec
                && !log[i].writer.Operator?;
        assert log'[i] == log[i];
      }
    }
  }

  function PatchLog(log: Log, d: Desired, writer: Writer): (r: Log)
    ensures log <= r
  {
    Commit(log, Patched(Read(log, d.key), d), writer)
  }

  lemma PatchIsLawful(log: Log, reconciled: set<nat>, d: Desired, writer: Writer)
    requires Lawful(log, reconciled) && !writer.Operator?
    ensures Lawful(PatchLog(log, d, writer), reconciled)
  {
    ReadLast(log, d.key);
    CommitIsLawful(log, reconciled, Patched(Read(log, d.key), d), writer);
  }

  /** Right after a Patch the current version is the patched object. */
  lemma PatchLands(log: Log, d: Desired, writer: Writer)
    ensures var log' := PatchLog(log, d, writer);
            && log <= log'
            && LatestAt(log', d.key) >= 0
            && log'[LatestAt(log', d.key)].cr == Patched(Read(log, d.key), d)
            && forall i | |log| <= i < |log'| :: log'[i] == Version(Patched(Read(log, d.key), d), writer)
  {
    ReadLast(PatchLog(log, d, writer), d.key);
  }

  /** Applying the same object again makes no new version. */
  lemma PatchIsIdempotent(log: Log, d: Desired, writer: Writer, again: Writer)
    ensures PatchLog(PatchLog(log, d, writer), d, again) == PatchLog(log, d, writer)
  {
  }

  /** The operator saw version `i` and writes its observed generation and conditions together. */
  function StatusLog(log: Log, i: nat, conditions: seq<Condition>): (r: Log)
    requires i < |log|
    ensures log <= r
    ensures forall j | |log| <= j < |r| :: r[j].writer == Operator
  {
    var cr := Read(log, log[i].cr.key);
    if cr.None? then log
    else Commit(log, cr.value.(status := Status(log[i].cr.generation, conditions)), Operator)
  }

  lemma StatusIsLawful(log: Log, reconciled: set<nat>, i: nat, conditions: seq<Condition>)
    requires Lawful(log, reconciled) && i < |log|
    requires HasReady(conditions) ==> i in reconciled
    ensures Lawful(StatusLog(log, i, conditions), reconciled)
  {
    ReadLast(log, log[i].cr.key);
    var cr := Read(log, log[i].cr.key).value;
    CommitIsLawful(log, reconciled, cr.(status := Status(log[i].cr.generation, conditions)), Operator);
  }

  // ---- Watches --------------------------------------------------------------

  /** A namespace watch opened when the log had `base` entries shows the objects current at that moment
      and then every later version. */
  predicate Visible(log: Log, base: nat, namespace: string, i: nat)
    requires base <= |log| && i < |log|
  {
    log[i].cr.key.namespace == namespace && (i >= base || LatestAt(log[..base], log[i].cr.key) == i)
  }

  /** The next event of a watch that has gone past `pos` entries; |log| when it has caught up. */
  function NextVisible(log: Log, base: nat, namespace: string, pos: nat): (n: nat)
    requires base <= |log| && pos <= |log|
    ensures pos <= n <= |log|
    ensures n < |log| ==> Visible(log, base, namespace, n)
    ensures forall i | pos <= i < n :: !Visible(log, base, namespace, i)
    decreases |log| - pos
  {
    if pos == |log| || Visible(log, base, namespace, pos) then pos else NextVisible(log, base, namespace, pos + 1)
  }

  /** A watch that has caught up has shown the current version of every object in its namespace. */
  lemma CurrentIsVisible(log: Log, base: nat, k: Key)
    requires base <= |log| && LatestAt(log, k) >= 0
    ensures Visible(log, base, k.namespace, LatestAt(log, k))
  {
    var at := LatestAt(log, k);
    if at < base {
      var past := log[..base];
      assert past[at].cr.key == k;
      assert forall j | at < j < base :: past[j].cr.key != k;
    }
  }

  lemma VisibleStays(log: Log, log': Log, base: nat, namespace: string, i: nat)
    requires log <= log' && base <= |log| && i < |log|
    ensures Visible(log', base, namespace, i) == Visible(log, base, namespace, i)
  {
    assert log'[..base] == log[..base];
  }
}
