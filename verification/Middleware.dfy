/** The status recorder wrapped around a response writer, and request accounting (internal/httpx/middleware.go). */
module Middleware {
  import opened Basics

  // ---- Chain -------------------------------------------------------------------

  /** The first middleware outermost. */
  function Wrapped<H>(h: H, mws: seq<H -> H>): H {
    if mws == [] then h else mws[0](Wrapped(h, mws[1..]))
  }

  /** Each stage is its middleware around the next, down to the bare handler. */
  ghost predicate StagesOf<H>(h: H, mws: seq<H -> H>, stages: seq<H>) {
    && |stages| == |mws| + 1 && stages[|mws|] == h
    && forall i | 0 <= i < |mws| :: stages[i] == mws[i](stages[i + 1])
  }

  /** `Chain`. */
  method Chain<H>(h: H, mws: seq<H -> H>) returns (out: H, ghost stages: seq<H>)
    ensures StagesOf(h, mws, stages) && out == stages[0]
    ensures out == Wrapped(h, mws)
  {
    out := h;
    stages := [h];
    var i := |mws|;
    while i > 0
      invariant 0 <= i <= |mws|
      invariant out == Wrapped(h, mws[i..]) && stages != [] && out == stages[0]
      invariant StagesOf(h, mws[i..], stages)
    {
      i := i - 1;
      assert mws[i..][0] == mws[i] && mws[i..][1..] == mws[i + 1..];
      out := mws[i](out);
      stages := [out] + stages;
    }
    assert mws[0..] == mws;
  }

  /** Chaining more middlewares is chaining around the inner chain. */
  lemma {:induction false} ChainsNest<H>(h: H, outer: seq<H -> H>, inner: seq<H -> H>)
    ensures Wrapped(h, outer + inner) == Wrapped(Wrapped(h, inner), outer)
  {
    if outer == [] {
      assert outer + inner == inner;
    } else {
      ChainsNest(h, outer[1..], inner);
      assert (outer + inner)[1..] == outer[1..] + inner;
    }
  }

  // ---- Values ------------------------------------------------------------------

  datatype Rec = Rec(status: int, bytes: nat, wroteHeader: bool)

  /** What net/http has sent: the final status once there is one, and body bytes. */
  datatype Net = Net(final: Option<int>, bytes: nat)

  datatype Call = Header(code: int) | Body(accepted: nat)

  /** Informational responses (section 15.2 of RFC 9110) other than 101 do not end the header. */
  predicate Informational(code: int) {
    100 <= code <= 199 && code != 101
  }

  function NetAfter(n: Net, c: Call): Net {
    match c
    case Header(code) => if n.final.Some? || Informational(code) then n else n.(final := Some(code))
    case Body(k) => Net(if n.final.None? then Some(200) else n.final, n.bytes + k)
  }

  /** The status the client sees: a handler that never writes sends 200. */
  function OnTheWire(n: Net): int {
    if n.final.Some? then n.final.value else 200
  }

  /** A stack of recorders, outermost first, over the network. */
  datatype Stack = Stack(recs: seq<Rec>, net: Net)

  function After(s: Stack, c: Call): (r: Stack)
    ensures |r.recs| == |s.recs|
    decreases |s.recs|
  {
    if s.recs == [] then s.(net := NetAfter(s.net, c))
    else
      var top := s.recs[0];
      match c
      case Header(code) =>
        if top.wroteHeader then s
        else
          var inner := After(Stack(s.recs[1..], s.net), c);
          Stack([Rec(code, top.bytes, true)] + inner.recs, inner.net)
      case Body(k) =>
        var inner := After(Stack(s.recs[1..], s.net), c);
        Stack([Rec(top.status, top.bytes + k, true)] + inner.recs, inner.net)
  }

  // ---- The recorder --------------------------------------------------------------

  class Wire {
    var net: Net

    constructor ()
      ensures net == Net(None, 0)
    {
      net := Net(None, 0);
    }

    method WriteHeader(code: int)
      modifies this
      ensures net == NetAfter(old(net), Header(code))
    {
      if net.final.None? && !Informational(code) {
        net := net.(final := Some(code));
      }
    }

    /** `accepted` is the count the network reports. */
    method Write(accepted: nat) returns (n: nat)
      modifies this
      ensures n == accepted && net == NetAfter(old(net), Body(accepted))
    {
      if net.final.None? {
        net := net.(final := Some(200));
      }
      net := net.(bytes := net.bytes + accepted);
      n := accepted;
    }
  }

  class StatusRecorder {
    var status: int
    var bytes: nat
    var wroteHeader: bool
    const inner: StatusRecorder?
    const wire: Wire
    ghost const depth: nat
    ghost const Repr: set<object>

    ghost predicate Valid()
      reads this, Repr
      decreases depth
    {
      && this in Repr && wire in Repr
      && if inner == null then depth == 0
         else && inner in Repr && inner.Repr <= Repr && this !in inner.Repr
              && inner.depth < depth && inner.wire == wire && inner.Valid()
    }

    ghost function Recs(): seq<Rec>
      requires Valid()
      reads this, Repr
      decreases depth
    {
      [Rec(status, bytes, wroteHeader)] + if inner == null then [] else inner.Recs()
    }

    ghost function State(): Stack
      requires Valid()
      reads this, Repr
    {
      Stack(Recs(), wire.net)
    }

    /** `newStatusRecorder` around the connection. */
    constructor (wire: Wire)
      ensures Valid() && fresh(Repr - {wire}) && this.wire == wire
      ensures State() == Stack([Rec(200, 0, false)], wire.net)
    {
      status, bytes, wroteHeader := 200, 0, false;
      inner, this.wire, depth, Repr := null, wire, 0, {this, wire};
    }

    /** `newStatusRecorder` around another recorder. */
    constructor Around(next: StatusRecorder)
      requires next.Valid()
      ensures Valid() && fresh(Repr - next.Repr) && wire == next.wire
      ensures State() == Stack([Rec(200, 0, false)] + next.Recs(), next.wire.net)
    {
      status, bytes, wroteHeader := 200, 0, false;
      inner, wire, depth, Repr := next, next.wire, next.depth + 1, next.Repr + {this};
    }

    method WriteHeader(code: int)
      requires Valid()
      modifies Repr
      ensures Valid() && State() == After(old(State()), Header(code))
      decreases depth
    {
      if wroteHeader {
        return;
      }
      status := code;
      wroteHeader := true;
      if inner == null {
        wire.WriteHeader(code);
      } else {
        inner.WriteHeader(code);
      }
    }

    method Write(accepted: nat) returns (n: nat)
      requires Valid()
      modifies Repr
      ensures Valid() && n == accepted && State() == After(old(State()), Body(accepted))
      decreases depth
    {
      if !wroteHeader {
        wroteHeader := true;
      }
      if inner == null {
        n := wire.Write(accepted);
      } else {
        n := inner.Write(accepted);
      }
      bytes := bytes + n;
    }
  }

  // ---- Recorders against the wire ---------------------------------------------------

  function Served(depth: nat, calls: seq<Call>): Stack {
    if calls == [] then Stack(seq(depth, _ => Rec(200, 0, false)), Net(None, 0))
    else After(Served(depth, calls[..|calls| - 1]), calls[|calls| - 1])
  }

  /** All recorders of a stack hold `r`. */
  ghost predicate Uniform(s: Stack, depth: nat, r: Rec) {
    |s.recs| == depth && forall i | 0 <= i < depth :: s.recs[i] == r
  }

  lemma {:induction false} UniformAfter(s: Stack, depth: nat, r: Rec, c: Call)
    requires Uniform(s, depth, r)
    ensures var r' := match c
                      case Header(code) => if r.wroteHeader then r else Rec(code, r.bytes, true)
                      case Body(k) => Rec(r.status, r.bytes + k, true);
            && Uniform(After(s, c), depth, r')
            && After(s, c).net == if depth > 0 && c.Header? && r.wroteHeader then s.net else NetAfter(s.net, c)
    decreases depth
  {
    if depth > 0 {
      UniformAfter(Stack(s.recs[1..], s.net), depth - 1, r, c);
    }
  }

  /** What every recorder holds after a sequence of calls. */
  function Seen(calls: seq<Call>): Rec {
    if calls == [] then Rec(200, 0, false)
    else
      var r := Seen(calls[..|calls| - 1]);
      match calls[|calls| - 1]
      case Header(code) => if r.wroteHeader then r else Rec(code, r.bytes, true)
      case Body(k) => Rec(r.status, r.bytes + k, true)
  }

  predicate StartsInformational(calls: seq<Call>) {
    calls != [] && calls[0].Header? && Informational(calls[0].code)
  }

  lemma {:induction false} RecordersAgree(depth: nat, calls: seq<Call>)
    requires depth >= 1
    ensures var s, r := Served(depth, calls), Seen(calls);
            && Uniform(s, depth, r)
            && r.wroteHeader == (calls != [])
            && r.bytes == s.net.bytes
            && (!StartsInformational(calls) ==> r.status == OnTheWire(s.net) && (calls != [] ==> s.net.final.Some?))
            && (StartsInformational(calls) ==> Informational(r.status) && OnTheWire(s.net) == 200)
  {
    if calls != [] {
      var front := calls[..|calls| - 1];
      RecordersAgree(depth, front);
      UniformAfter(Served(depth, front), depth, Seen(front), calls[|calls| - 1]);
      assert front != [] ==> front[0] == calls[0];
    }
  }

  /** Nested recorders agree with each other and with the bytes on the wire on every call sequence, and with its status
      exactly when the handler does not start with an informational header. */
  lemma RecordedIsSent(depth: nat, calls: seq<Call>, i: nat)
    requires i < depth
    ensures var s := Served(depth, calls);
            && i < |s.recs| && s.recs[i] == s.recs[0]
            && s.recs[i].bytes == s.net.bytes == Total(Accepted, calls)
            && (s.recs[i].status == OnTheWire(s.net) <==>
                  !(calls != [] && calls[0].Header? && 100 <= calls[0].code <= 199 && calls[0].code != 101))
            && s.recs[i].status == (if calls != [] && calls[0].Header? then calls[0].code else 200)
  {
    RecordersAgree(depth, calls);
    SeenTellsCalls(calls);
  }

  function Accepted(c: Call): nat { if c.Body? then c.accepted else 0 }

  /** The first call fixes the status; the bytes of all of them add up. */
  lemma {:induction false} SeenTellsCalls(calls: seq<Call>)
    ensures Seen(calls).status == (if calls != [] && calls[0].Header? then calls[0].code else 200)
    ensures Seen(calls).bytes == Total(Accepted, calls)
    ensures Seen(calls).wroteHeader <==> calls != []
  {
    if calls != [] {
      SeenTellsCalls(calls[..|calls| - 1]);
    }
  }

  // ---- Accounting --------------------------------------------------------------------

  /** A request in the chain Recover, RateLimit, Metrics, handler. */
  datatype Stage = Outside | Inside | Counted | Unwinding | Escaped | Over(how: Ending)

  datatype Ending = Handled | Limited | Panicked

  datatype Books = Books(requests: nat, limited: nat, panics: nat, inflight: int, reqs: seq<Stage>)

  datatype Event =
    Arrive | Limit(r: nat) | Enter(r: nat) | Return(r: nat) | Panic(r: nat) | Leave(r: nat) | Recover(r: nat)

  function Do(b: Books, e: Event): Books {
    if e.Arrive? then b.(reqs := b.reqs + [Outside])
    else if e.r >= |b.reqs| then b
    else
      var at := b.reqs[e.r];
      match e
      case Limit(r) => if at.Outside? then b.(limited := b.limited + 1, reqs := b.reqs[r := Over(Limited)]) else b
      case Enter(r) => if at.Outside? then b.(inflight := b.inflight + 1, reqs := b.reqs[r := Inside]) else b
      case Return(r) => if at.Inside? then b.(requests := b.requests + 1, reqs := b.reqs[r := Counted]) else b
      case Panic(r) => if at.Inside? then b.(reqs := b.reqs[r := Unwinding]) else b
      case Leave(r) =>
        if at.Counted? then b.(inflight := b.inflight - 1, reqs := b.reqs[r := Over(Handled)])
        else if at.Unwinding? then b.(inflight := b.inflight - 1, reqs := b.reqs[r := Escaped])
        else b
      case Recover(r) => if at.Escaped? then b.(panics := b.panics + 1, reqs := b.reqs[r := Over(Panicked)]) else b
  }

  function Kept(events: seq<Event>): Books {
    if events == [] then Books(0, 0, 0, 0, []) else Do(Kept(events[..|events| - 1]), events[|events| - 1])
  }

  function InMetrics(x: Stage): nat {
    if x.Inside? || x.Counted? || x.Unwinding? then 1 else 0
  }

  /** Handled to the end, whether or not it has left `Metrics` yet. */
  function WasHandled(x: Stage): nat { if x.Counted? || x == Over(Handled) then 1 else 0 }
  function WasLimited(x: Stage): nat { if x == Over(Limited) then 1 else 0 }
  function HasPanicked(x: Stage): nat { if x == Over(Panicked) then 1 else 0 }

  ghost predicate Balanced(b: Books) {
    && b.inflight == Total(InMetrics, b.reqs)
    && b.requests == Total(WasHandled, b.reqs)
    && b.limited == Total(WasLimited, b.reqs)
    && b.panics == Total(HasPanicked, b.reqs)
  }

  /** What an event adds to each counter is what it changes in its request. */
  lemma EventDelta(b: Books, e: Event)
    requires !e.Arrive? && e.r < |b.reqs|
    ensures var b', from := Do(b, e), b.reqs[e.r];
            && |b'.reqs| == |b.reqs| && b'.reqs == b.reqs[e.r := b'.reqs[e.r]]
            && b'.inflight - b.inflight == InMetrics(b'.reqs[e.r]) - InMetrics(from)
            && b'.requests - b.requests == WasHandled(b'.reqs[e.r]) - WasHandled(from)
            && b'.limited - b.limited == WasLimited(b'.reqs[e.r]) - WasLimited(from)
            && b'.panics - b.panics == HasPanicked(b'.reqs[e.r]) - HasPanicked(from)
  {
  }

  lemma EventBalances(b: Books, e: Event)
    requires Balanced(b)
    ensures Balanced(Do(b, e))
  {
    if e.Arrive? {
      TotalSnoc(InMetrics, b.reqs, Outside);
      TotalSnoc(WasHandled, b.reqs, Outside);
      TotalSnoc(WasLimited, b.reqs, Outside);
      TotalSnoc(HasPanicked, b.reqs, Outside);
    } else if e.r < |b.reqs| {
      var x := Do(b, e).reqs[e.r];
      EventDelta(b, e);
      TotalUpdate(InMetrics, b.reqs, e.r, x);
      TotalUpdate(WasHandled, b.reqs, e.r, x);
      TotalUpdate(WasLimited, b.reqs, e.r, x);
      TotalUpdate(HasPanicked, b.reqs, e.r, x);
    }
  }

  /** Over every interleaving the in-flight gauge is the number of requests inside `Metrics`, and each of the three
      counters is the number of requests that ended its way: handled, limited, panicked. */
  lemma {:induction false} BooksBalance(events: seq<Event>)
    ensures Balanced(Kept(events))
  {
    if events != [] {
      BooksBalance(events[..|events| - 1]);
      EventBalances(Kept(events[..|events| - 1]), events[|events| - 1]);
    }
  }
}
