/** The wired service: the JSM provider behind the dispatcher (internal/webhook/dispatcher.go,
    internal/webhook/jsm/provider.go). */
module Deployment {
  import opened Basics
  import opened Resource
  import opened Protocol
  import Answers
  import Cluster
  import Convergence
  import Executor
  import Jsm
  import Safety
  import Signature
  import Waits

  /** `mac` and `parse` stand for HMAC-SHA256 and Go's JSON parser. */
  datatype Settings = Settings(
    jsm: Jsm.Config,
    routes: set<string>,
    maxBody: nat,
    secret: string,
    skew: int,
    syncTimeout: nat,
    mac: Signature.Mac,
    parse: string -> Option<Jsm.Json>)

  /** `ServeHTTP` up to and including the signature check. */
  function AdmissionOf(w: Settings, x: Input): Admission {
    if x.provider !in w.routes then UnknownProvider
    else if |x.wire| > w.maxBody then BodyTooLarge
    else if x.broken then BodyUnreadable
    else if Signature.Verify(w.mac, w.secret, x.sigHeader, x.tsHeader, x.wire, x.clock, w.skew) != Signature.Accepted
    then BadSignature
    else Pass
  }

  /** The stamp is accepted and the header spells the MAC of stamp and body under the secret. */
  ghost predicate Authentic(w: Settings, x: Input) {
    && Signature.VerifyTimestamp(x.tsHeader, x.clock, w.skew) == Signature.Accepted
    && (Signature.PlausibleClock(x.clock) && Signature.MIN64 <= w.skew <= Signature.MAX64 ==>
          Signature.Stamped(x.tsHeader, x.clock, w.skew))
    && Signature.Carries(x.sigHeader, w.mac(w.secret, "v0:" + x.tsHeader + ":" + x.wire))
  }

  /** Routed, small enough, read to the end and authentic. */
  ghost predicate Admissible(w: Settings, x: Input) {
    x.provider in w.routes && |x.wire| <= w.maxBody && !x.broken && Authentic(w, x)
  }

  /** Which input each check stops, in their order, and that nothing else is stopped. */
  lemma AdmissionTellsInput(w: Settings, x: Input)
    ensures AdmissionOf(w, x) == UnknownProvider <==> x.provider !in w.routes
    ensures AdmissionOf(w, x) == BodyTooLarge <==> x.provider in w.routes && |x.wire| > w.maxBody
    ensures AdmissionOf(w, x) == BodyUnreadable <==> x.provider in w.routes && |x.wire| <= w.maxBody && x.broken
    ensures AdmissionOf(w, x) == Pass ==> Admissible(w, x)
    ensures w.mac(w.secret, "v0:" + x.tsHeader + ":" + x.wire) != [] && Admissible(w, x) ==> AdmissionOf(w, x) == Pass
  {
    Signature.VerifyAcceptsExactlySigned(w.mac, w.secret, x.sigHeader, x.tsHeader, x.wire, x.clock, w.skew);
    if Signature.PlausibleClock(x.clock) && Signature.MIN64 <= w.skew <= Signature.MAX64 {
      Signature.AcceptsExactlyStamps(x.tsHeader, x.clock, w.skew);
    }
  }

  /** The status of every answer tells which check stopped the request: 404 no route, 413 too large, 401 not authentic,
      400 without a body text a broken connection; a request that meets them all is decided on its ticket. */
  lemma RejectionsTellInput(w: Settings, steps: seq<Step>, rid: nat)
    requires rid < |Exec(Service(w), steps).reqs| && Exec(Service(w), steps).reqs[rid].pc.Answered?
    ensures var r := Exec(Service(w), steps).reqs[rid];
            var x, small := r.input, r.input.provider in w.routes && |r.input.wire| <= w.maxBody;
            && (r.pc.status == 404 <==> x.provider !in w.routes)
            && (r.pc.status == 413 <==> x.provider in w.routes && |x.wire| > w.maxBody)
            && (r.pc.status == 400 && r.pc.body.None? <==> small && x.broken)
            && (r.pc.status == 401 ==> small && !x.broken)
            && (w.mac(w.secret, "v0:" + x.tsHeader + ":" + x.wire) != [] && small && !x.broken ==>
                  (r.pc.status == 401 <==> !Authentic(w, x)))
  {
    var r := Exec(Service(w), steps).reqs[rid];
    AdmissionTellsInput(w, r.input);
    Answers.AnswerIsExplained(Service(w), steps, rid);
    Safety.OutcomeFrame(Service(w), steps, rid);
    assert Service(w).admission(r.input) == AdmissionOf(w, r.input);
  }

  function Parsed(w: Settings, x: Input): Option<Jsm.Json> {
    if x.wire == "" then None else w.parse(x.wire)
  }

  function Service(w: Settings): Config {
    Config(x => AdmissionOf(w, x), x => Jsm.Handle(w.jsm, Parsed(w, x)), w.syncTimeout)
  }

  /** The configured timeout bounds every wait: in every run a request that waits has a deadline at most that far away,
      and one that starts to wait has one exactly that far away. */
  lemma TimeoutIsConfigured(w: Settings, steps: seq<Step>, rid: nat, move: Move)
    requires rid < |Exec(Service(w), steps).reqs|
    ensures var s := Exec(Service(w), steps);
            && (Waits.InWait(s.reqs[rid].pc) ==> s.reqs[rid].deadline <= s.now + w.syncTimeout)
            && var r' := DoMove(Service(w), s, rid, move).req;
               (Waits.BeforeWait(s.reqs[rid].pc) && !Waits.InWait(s.reqs[rid].pc) && Waits.InWait(r'.pc) ==>
                  r'.deadline == s.now + w.syncTimeout)
  {
    Waits.AlwaysNear(Service(w), steps);
    Waits.MoveSetsDeadline(Service(w), Exec(Service(w), steps), rid, move);
  }

  /** In every run an authentic request whose body is empty, or is no JSON, is answered 400 and writes nothing. */
  lemma UnparsedBodyIsBadRequest(w: Settings, steps: seq<Step>, rid: nat)
    requires rid < |Exec(Service(w), steps).reqs| && Exec(Service(w), steps).reqs[rid].pc.Answered?
    requires var x := Exec(Service(w), steps).reqs[rid].input;
             AdmissionOf(w, x) == Pass && (x.wire == "" || w.parse(x.wire).None?)
    ensures var r := Exec(Service(w), steps).reqs[rid];
            r.pc.status == 400 && r.mark.None? && r.act.None?
  {
    var r := Exec(Service(w), steps).reqs[rid];
    Answers.AnswerIsExplained(Service(w), steps, rid);
    Safety.OutcomeFrame(Service(w), steps, rid);
    Safety.Always(Service(w), steps);
    assert Safety.ReqOk(Service(w), Exec(Service(w), steps).log, r);
    assert Service(w).admission(r.input) == AdmissionOf(w, r.input);
    assert Service(w).decision(r.input) == Jsm.Handle(w.jsm, None);
  }

  /** In every interleaving, each version webhookd wrote comes from a request that passed routing, the size limit and
      the signature check, whose ticket is triggered and filled, and carries that ticket's name, issue key, the spec
      built from its fields and the executor's labels; its spec meets the CRD schema. */
  lemma WritesComeFromVerifiedTickets(w: Settings, steps: seq<Step>, i: nat)
    requires i < |Exec(Service(w), steps).log| && Exec(Service(w), steps).log[i].writer.Webhookd?
    ensures var s := Exec(Service(w), steps);
            var rid := s.log[i].writer.rid;
            && rid < |s.reqs|
            && var x, cr := s.reqs[rid].input, s.log[i].cr;
               && x.provider in w.routes && |x.wire| <= w.maxBody
               && Authentic(w, x)
               && Parsed(w, x).Some?
               && FromTicket(w, Parsed(w, x).value, cr)
               && FitsSchema(cr.spec)
  {
    Safety.WriteProvenance(Service(w), steps, i);
    var s := Exec(Service(w), steps);
    var r := s.reqs[s.log[i].writer.rid];
    assert Service(w).decision(r.input) == Jsm.Handle(w.jsm, Parsed(w, r.input));
    TicketOf(w, r, s.log[i].cr);
    AdmissionTellsInput(w, r.input);
    Safety.SpecsAreComplete(Service(w), steps);
  }

  /** The action says what the triggered ticket says. */
  ghost predicate SaysTicket(c: Jsm.Config, j: Jsm.Json, key: Key, spec: Spec, issue: string) {
    && Jsm.Triggered(c, j) && Jsm.AllFilled(c, j)
    && Jsm.TextAt(j, ["issue", "key"], issue) && issue != "" && key == Key(c.namespace, CRName(issue))
    && spec == Jsm.TicketSpec(c, j, issue)
  }

  lemma ActionSaysTicket(c: Jsm.Config, j: Jsm.Json, act: Jsm.Action)
    requires Jsm.Handle(c, Some(j)) == Jsm.Apply(act)
    ensures Jsm.ANNOTATION_ISSUE in act.annotations && act.source == "jsm"
    ensures SaysTicket(c, j, act.key, act.spec, act.annotations[Jsm.ANNOTATION_ISSUE])
    ensures FitsSchema(act.spec) <==> c.identityProviderId != ""
  {
    Jsm.AppliesExactlyFilledTickets(c, j);
  }

  /** The resource carries that ticket's content, its issue key and the executor's labels. */
  ghost predicate FromTicket(w: Settings, j: Jsm.Json, cr: CustomResource) {
    && cr.labels == map["webhookd.io/managed-by" := "webhookd", "webhookd.io/source" := "jsm"]
    && Jsm.ANNOTATION_ISSUE in cr.annotations
    && SaysTicket(w.jsm, j, cr.key, cr.spec, cr.annotations[Jsm.ANNOTATION_ISSUE])
  }

  lemma TicketOf(w: Settings, r: Req, cr: CustomResource)
    requires r.act.Some? && Jsm.Handle(w.jsm, Parsed(w, r.input)) == Jsm.Apply(r.act.value)
    requires Safety.Wrote(r, cr)
    ensures Parsed(w, r.input).Some? && FromTicket(w, Parsed(w, r.input).value, cr)
  {
    var stamp :| Safety.Carries(cr, Executor.Prepared(r.act.value, stamp));
    HandledBodyParses(w.jsm, Parsed(w, r.input));
    ActionSaysTicket(w.jsm, Parsed(w, r.input).value, r.act.value);
    IssueKeyKept(r.act.value.annotations, stamp);
  }

  lemma HandledBodyParses(c: Jsm.Config, body: Option<Jsm.Json>)
    requires Jsm.Handle(c, body).Apply?
    ensures body.Some?
  {
  }

  lemma IssueKeyKept(own: map<string, string>, stamp: Executor.Stamp)
    requires Jsm.ANNOTATION_ISSUE in own
    ensures var all := own + Executor.SystemAnnotations(stamp);
            Jsm.ANNOTATION_ISSUE in all && all[Jsm.ANNOTATION_ISSUE] == own[Jsm.ANNOTATION_ISSUE]
  {
    assert |Jsm.ANNOTATION_ISSUE| == 25 && |Executor.ANNOTATION_APPLIED| == 22;
    assert |Executor.ANNOTATION_REQUEST_ID| == 22 && |Executor.ANNOTATION_TRACE_ID| == 20;
  }

  /** The version was written by a request with this body. */
  ghost predicate WrittenFor(s: Sys, i: nat, body: string)
    requires i < |s.log|
  {
    && s.log[i].writer.Webhookd? && s.log[i].writer.rid < |s.reqs|
    && s.reqs[s.log[i].writer.rid].input.wire == body
  }

  lemma OneKeyPerBody(w: Settings, steps: seq<Step>, i: nat, body: string, act: Jsm.Action)
    requires Jsm.Handle(w.jsm, if body == "" then None else w.parse(body)) == Jsm.Apply(act)
    requires i < |Exec(Service(w), steps).log| && WrittenFor(Exec(Service(w), steps), i, body)
    ensures Exec(Service(w), steps).log[i].cr.key == act.key
  {
    Safety.WriteProvenance(Service(w), steps, i);
    var s := Exec(Service(w), steps);
    assert Service(w).decision(s.reqs[s.log[i].writer.rid].input) == Jsm.Apply(act);
  }

  /** Any number of deliveries of one body, in any interleaving and with any failures, leave at most one object for the
      ticket: nothing is written under another key, what is there is at generation 1 with the spec built from that body,
      and it is there as soon as one Patch landed. */
  lemma DeliveriesOfOneBody(w: Settings, steps: seq<Step>, body: string, act: Jsm.Action, rid: nat)
    requires Jsm.Handle(w.jsm, if body == "" then None else w.parse(body)) == Jsm.Apply(act)
    requires forall r <- Exec(Service(w), steps).reqs ::
               Jsm.Handle(w.jsm, Parsed(w, r.input)).Apply?
               && Jsm.Handle(w.jsm, Parsed(w, r.input)).act.key == act.key ==>
               r.input.wire == body
    requires Convergence.NoForeign(steps, act.key)
    ensures var s := Exec(Service(w), steps);
            && (forall i | 0 <= i < |s.log| && WrittenFor(s, i, body) :: s.log[i].cr.key == act.key)
            && (forall cr | Cluster.Read(s.log, act.key) == Some(cr) :: cr.generation == 1 && cr.spec == act.spec)
            && (rid < |s.reqs| && s.reqs[rid].mark.Some? && s.reqs[rid].input.wire == body ==>
                  Cluster.Read(s.log, act.key).Some?)
  {
    var c, s := Service(w), Exec(Service(w), steps);
    forall i | 0 <= i < |s.log| && WrittenFor(s, i, body) ensures s.log[i].cr.key == act.key {
      OneKeyPerBody(w, steps, i, body, act);
    }
    forall r | r in s.reqs && c.decision(r.input).Apply? && c.decision(r.input).act.key == act.key
      ensures c.decision(r.input).act.spec == act.spec
    {
      assert r.input.wire == body;
    }
    assert [] + steps == steps;
    Convergence.RetriesConverge(c, [], steps, rid, act.key, act.spec);
    Safety.Always(c, steps);
    if rid < |s.reqs| {
      assert Safety.ReqOk(c, s.log, s.reqs[rid]);
    }
  }
}
