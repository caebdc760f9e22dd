/** Start, readiness and two-listener shutdown (cmd/webhookd/main.go). */
module Lifecycle {
  import opened Basics

  /** A listener goroutine: ListenAndServe returns, then it sends once; `failed` is a non-Closed error. */
  datatype Listener = Idle | Serving | Exited(failed: bool) | Sent(failed: bool)

  /** The main goroutine, statement by statement. `got` is the message the select received, if it took that arm. */
  datatype Main =
    | Starting
    | Ready
    | Woken(got: Option<bool>)
    | Unready(got: Option<bool>)
    | PublicDrained(got: Option<bool>, publicOk: bool)
    | Drained(got: Option<bool>, publicOk: bool, adminOk: bool)
    | Done(got: Option<bool>, publicOk: bool, adminOk: bool, exitOk: bool)

  datatype Sys = Sys(main: Main, listeners: seq<Listener>, channel: seq<bool>, ready: bool, signalled: bool)

  const CAPACITY := 2

  function Init(): Sys {
    Sys(Starting, [Idle, Idle], [], false, false)
  }

  datatype Step =
    | Launch(i: nat)
    | MarkReady
    | ListenerReturns(i: nat, failed: bool)
    | Send(i: nat)
    | Signal
    | WakeOnSignal
    | WakeOnMessage
    | MarkUnready
    | DrainPublic(ok: bool)
    | DrainAdmin(ok: bool)
    | Exit

  predicate BeforeDrain(m: Main) { m.Starting? || m.Ready? || m.Woken? }

  /** Whether the main goroutine has reached the Shutdown call for listener `i`, the public one first; only then does
      ListenAndServe return ErrServerClosed. */
  predicate ShutDown(m: Main, i: nat) {
    !BeforeDrain(m) && (i == 0 || !m.Unready?)
  }

  function Do(s: Sys, step: Step): Sys {
    match step
    case Launch(i) =>
      if s.main.Starting? && i < |s.listeners| && s.listeners[i].Idle? then
        s.(listeners := s.listeners[i := Serving])
      else s
    case MarkReady =>
      if s.main.Starting? && (forall l <- s.listeners :: !l.Idle?) then s.(main := Ready, ready := true) else s
    case ListenerReturns(i, failed) =>
      if i < |s.listeners| && s.listeners[i].Serving? && (failed || ShutDown(s.main, i)) then
        s.(listeners := s.listeners[i := Exited(failed)])
      else s
    case Send(i) =>
      if i < |s.listeners| && s.listeners[i].Exited? && |s.channel| < CAPACITY then
        s.(listeners := s.listeners[i := Sent(s.listeners[i].failed)], channel := s.channel + [s.listeners[i].failed])
      else s
    case Signal => s.(signalled := true)
    case WakeOnSignal => if s.main.Ready? && s.signalled then s.(main := Woken(None)) else s
    case WakeOnMessage =>
      if s.main.Ready? && s.channel != [] then s.(main := Woken(Some(s.channel[0])), channel := s.channel[1..]) else s
    case MarkUnready => if s.main.Woken? then s.(main := Unready(s.main.got), ready := false) else s
    case DrainPublic(ok) => if s.main.Unready? then s.(main := PublicDrained(s.main.got, ok)) else s
    case DrainAdmin(ok) =>
      if s.main.PublicDrained? then s.(main := Drained(s.main.got, s.main.publicOk, ok)) else s
    case Exit =>
      if s.main.Drained? then
        var Drained(got, publicOk, adminOk) := s.main;
        s.(main := Done(got, publicOk, adminOk, publicOk && adminOk && got != Some(true)))
      else s
  }

  function Exec(steps: seq<Step>): Sys {
    if steps == [] then Init() else Do(Exec(steps[..|steps| - 1]), steps[|steps| - 1])
  }

  function HasSent(l: Listener): nat { if l.Sent? then 1 else 0 }
  function SentFailure(l: Listener): nat { if l == Sent(true) then 1 else 0 }

  /** How many messages are failures. */
  function Failures(channel: seq<bool>): nat {
    if channel == [] then 0 else (if channel[0] then 1 else 0) + Failures(channel[1..])
  }

  lemma {:induction false} FailuresSnoc(channel: seq<bool>, failed: bool)
    ensures Failures(channel + [failed]) == Failures(channel) + (if failed then 1 else 0)
  {
    if channel != [] {
      FailuresSnoc(channel[1..], failed);
      assert (channel + [failed])[1..] == channel[1..] + [failed];
    }
  }

  /** ListenAndServe returned an error, or ErrServerClosed. */
  predicate Failed(l: Listener) { (l.Exited? || l.Sent?) && l.failed }
  predicate Closed(l: Listener) { (l.Exited? || l.Sent?) && !l.failed }

  /** The message the main goroutine took from the channel, if any. */
  function Taken(m: Main): Option<bool> {
    if m.Starting? || m.Ready? then None else m.got
  }

  ghost predicate Inv(s: Sys) {
    && |s.listeners| == 2
    && |s.channel| + (if Taken(s.main).Some? then 1 else 0) == HasSent(s.listeners[0]) + HasSent(s.listeners[1])
    && Failures(s.channel) + (if Taken(s.main) == Some(true) then 1 else 0)
       == SentFailure(s.listeners[0]) + SentFailure(s.listeners[1])
    && (s.ready <==> s.main.Ready? || s.main.Woken?)
    && (!s.main.Starting? ==> !s.listeners[0].Idle? && !s.listeners[1].Idle?)
    && (BeforeDrain(s.main) ==> !Closed(s.listeners[0]) && !Closed(s.listeners[1]) && false !in s.channel)
    && (Taken(s.main).Some? ==> Taken(s.main).value && (Failed(s.listeners[0]) || Failed(s.listeners[1])))
    && (!s.main.Starting? && !s.main.Ready? && Taken(s.main).None? ==> s.signalled)
  }

  lemma ListenerStepKeeps(s: Sys, step: Step, s': Sys)
    requires Inv(s) && (step.Launch? || step.ListenerReturns?) && s' == Do(s, step)
    ensures Inv(s')
  {
  }

  lemma SendKeeps(s: Sys, i: nat, s': Sys)
    requires Inv(s) && s' == Do(s, Send(i))
    ensures Inv(s')
  {
    if i < |s.listeners| && s.listeners[i].Exited? {
      FailuresSnoc(s.channel, s.listeners[i].failed);
    }
  }

  lemma WakeOnMessageKeeps(s: Sys, s': Sys)
    requires Inv(s) && s' == Do(s, WakeOnMessage)
    ensures Inv(s')
  {
    if s.channel != [] {
      assert s.channel[0] in s.channel;
    }
  }

  lemma MainStepKeeps(s: Sys, step: Step, s': Sys)
    requires Inv(s) && !(step.Launch? || step.ListenerReturns? || step.Send? || step.WakeOnMessage?)
    requires s' == Do(s, step)
    ensures Inv(s')
  {
    if step.MarkReady? {
      assert s.listeners[0] in s.listeners && s.listeners[1] in s.listeners;
    }
  }

  lemma StepKeeps(s: Sys, step: Step)
    requires Inv(s)
    ensures Inv(Do(s, step))
  {
    match step
    case Launch(_) | ListenerReturns(_, _) => ListenerStepKeeps(s, step, Do(s, step));
    case Send(i) => SendKeeps(s, i, Do(s, step));
    case WakeOnMessage => WakeOnMessageKeeps(s, Do(s, step));
    case _ => MainStepKeeps(s, step, Do(s, step));
  }

  lemma {:induction false} Always(steps: seq<Step>)
    ensures Inv(Exec(steps))
  {
    if steps != [] {
      Always(steps[..|steps| - 1]);
      StepKeeps(Exec(steps[..|steps| - 1]), steps[|steps| - 1]);
    }
  }

  /** In every interleaving a listener that has returned can send at once, even after the main goroutine stopped
      receiving: no listener goroutine is left blocked. */
  lemma SendNeverBlocks(steps: seq<Step>, i: nat)
    requires i < |Exec(steps).listeners| && Exec(steps).listeners[i].Exited?
    ensures |Exec(steps).channel| < CAPACITY
    ensures Do(Exec(steps), Send(i)).listeners[i].Sent?
  {
    Always(steps);
  }

  /** Messages are neither lost nor made up: with the one the main goroutine took, the channel holds one per listener
      that sent, and a failure per listener that failed and sent. */
  lemma MessagesAreSent(steps: seq<Step>)
    ensures var s := Exec(steps);
            && |s.listeners| == 2
            && |s.channel| + (if Taken(s.main).Some? then 1 else 0) == HasSent(s.listeners[0]) + HasSent(s.listeners[1])
            && Failures(s.channel) + (if Taken(s.main) == Some(true) then 1 else 0)
               == SentFailure(s.listeners[0]) + SentFailure(s.listeners[1])
  {
    Always(steps);
  }

  /** Readiness is reported only after both listeners were started, always while the process waits to be stopped, and
      never once draining has begun. */
  lemma NotReadyWhileDraining(steps: seq<Step>)
    ensures var s := Exec(steps);
            && |s.listeners| == 2
            && (s.ready ==> BeforeDrain(s.main) && !s.listeners[0].Idle? && !s.listeners[1].Idle?)
            && (s.main.Ready? ==> s.ready)
  {
    Always(steps);
  }

  // ---- What an exit says about the run ----------------------------------------

  /** The steps of a run that took effect. */
  function Effective(steps: seq<Step>): seq<Step> {
    if steps == [] then []
    else
      var front := steps[..|steps| - 1];
      Effective(front) + (if Exec(steps) != Exec(front) then [steps[|steps| - 1]] else [])
  }

  /** The select took the signal arm and both drains succeeded. */
  predicate Clean(done: seq<Step>) {
    WakeOnSignal in done && DrainPublic(true) in done && DrainAdmin(true) in done
  }

  predicate Woke(m: Main) { !m.Starting? && !m.Ready? }
  predicate PublicDone(m: Main) { m.PublicDrained? || m.Drained? || m.Done? }
  predicate AdminDone(m: Main) { m.Drained? || m.Done? }

  /** What the main goroutine's locals hold is what took effect. */
  ghost predicate MainRemembers(m: Main, done: seq<Step>) {
    && (WakeOnSignal in done <==> Woke(m) && m.got.None?)
    && (WakeOnMessage in done <==> Woke(m) && m.got.Some?)
    && (DrainPublic(true) in done <==> PublicDone(m) && m.publicOk)
    && (DrainPublic(false) in done <==> PublicDone(m) && !m.publicOk)
    && (DrainAdmin(true) in done <==> AdminDone(m) && m.adminOk)
    && (DrainAdmin(false) in done <==> AdminDone(m) && !m.adminOk)
    && (m.Done? ==> (m.exitOk <==> Clean(done)))
  }

  ghost predicate ListenerRemembers(s: Sys, done: seq<Step>, i: nat) {
    ListenerReturns(i, true) in done <==> i < |s.listeners| && Failed(s.listeners[i])
  }

  lemma MainStep(s: Sys, done: seq<Step>, step: Step, s': Sys)
    requires Inv(s) && MainRemembers(s.main, done) && s' == Do(s, step) && s' != s
    ensures MainRemembers(s'.main, done + [step])
  {
    assert forall x :: x in done + [step] <==> x in done || x == step;
  }

  lemma ListenersStep(s: Sys, done: seq<Step>, step: Step, s': Sys, i: nat)
    requires ListenerRemembers(s, done, i) && s' == Do(s, step) && s' != s
    ensures ListenerRemembers(s', done + [step], i)
  {
  }

  lemma {:induction false} AlwaysRemembers(steps: seq<Step>, i: nat)
    ensures MainRemembers(Exec(steps).main, Effective(steps))
    ensures ListenerRemembers(Exec(steps), Effective(steps), i)
  {
    if steps != [] {
      var front, last := steps[..|steps| - 1], steps[|steps| - 1];
      AlwaysRemembers(front, i);
      Always(front);
      if Exec(steps) != Exec(front) {
        MainStep(Exec(front), Effective(front), last, Exec(steps));
        ListenersStep(Exec(front), Effective(front), last, Exec(steps), i);
      } else {
        assert Effective(steps) == Effective(front);
      }
    }
  }

  /** For every run that has ended. The exit is clean exactly when the signal arm was taken and both drains succeeded,
      so a clean exit means a signal arrived; an exit that is not clean has a failed drain or a failed listener to
      blame. */
  lemma CleanExit(steps: seq<Step>)
    requires Exec(steps).main.Done?
    ensures var s, done := Exec(steps), Effective(steps);
            && (s.main.exitOk <==> Clean(done))
            && (s.main.exitOk ==> s.signalled)
            && (!s.main.exitOk ==>
                  || DrainPublic(false) in done || DrainAdmin(false) in done
                  || (WakeOnMessage in done && (ListenerReturns(0, true) in done || ListenerReturns(1, true) in done)))
  {
    Always(steps);
    AlwaysRemembers(steps, 0);
    AlwaysRemembers(steps, 1);
  }

  /** A clean exit means no listener failed, except exactly when one did fail, the signal arm was taken and both drains
      succeeded: that failure is not reported. */
  lemma HiddenFailure(steps: seq<Step>)
    requires Exec(steps).main.Done?
    ensures var s, done := Exec(steps), Effective(steps);
            && |s.listeners| == 2
            && (s.main.exitOk && (Failed(s.listeners[0]) || Failed(s.listeners[1])) <==>
                  Clean(done) && (ListenerReturns(0, true) in done || ListenerReturns(1, true) in done))
  {
    Always(steps);
    AlwaysRemembers(steps, 0);
    AlwaysRemembers(steps, 1);
  }

  /** A run in which the public listener fails and a signal arrives before the select runs. */
  lemma FailureAndSignal() returns (steps: seq<Step>)
    ensures Exec(steps) == Sys(Ready, [Sent(true), Serving], [true], true, true)
  {
    var s;
    steps, s := Extend([], Init(), [Launch(0), Launch(1), MarkReady]);
    assert s == Sys(Ready, [Serving, Serving], [], true, false);
    steps, s := Extend(steps, s, [ListenerReturns(0, true), Send(0), Signal]);
  }

  /** Such a run: a signal can win the select against a failure already sent. */
  lemma CleanExitCanHideAFailure() returns (steps: seq<Step>)
    ensures Exec(steps).main.Done? && Exec(steps).main.exitOk && Sent(true) in Exec(steps).listeners
  {
    steps := FailureAndSignal();
    var s := Exec(steps);
    steps, s := Extend(steps, s, [WakeOnSignal, MarkUnready, DrainPublic(true)]);
    assert s == Sys(PublicDrained(None, true), [Sent(true), Serving], [true], false, true);
    steps, s := Extend(steps, s, [DrainAdmin(true), Exit, Signal]);
    assert s.listeners[0] == Sent(true);
  }

  lemma Extend(steps: seq<Step>, s: Sys, next: seq<Step>) returns (steps': seq<Step>, s': Sys)
    requires Exec(steps) == s && |next| == 3
    ensures Exec(steps') == s' && s' == Do(Do(Do(s, next[0]), next[1]), next[2])
  {
    Snoc(steps, next[0]);
    Snoc(steps + [next[0]], next[1]);
    Snoc(steps + [next[0]] + [next[1]], next[2]);
    steps' := steps + [next[0]] + [next[1]] + [next[2]];
    s' := Exec(steps');
  }

  lemma Snoc(steps: seq<Step>, step: Step)
    ensures Exec(steps + [step]) == Do(Exec(steps), step)
  {
    assert (steps + [step])[..|steps|] == steps;
  }
}
