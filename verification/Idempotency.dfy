/** The idempotency tracker: a TTL and capacity bounded set of claims kept as a map into a list
    (docs/demo/08-dispatcher.md). Clock readings are parameters. */
module Idempotency {
  import opened Basics

  function CompositeKey(instance: string, key: string): string {
    instance + "|" + key
  }

  /** Exactly when two (instance, key) pairs share a claim. */
  lemma CompositeKeyCollisions(i: string, k: string, j: string, l: string)
    ensures CompositeKey(i, k) == CompositeKey(j, l) <==>
            (i == j && k == l) || LeftPartLonger(i, k, j, l, '|') || LeftPartLonger(j, l, i, k, '|')
    ensures '|' !in i && '|' !in j && CompositeKey(i, k) == CompositeKey(j, l) ==> i == j && k == l
  {
    SeparatorReadings(i, k, j, l, '|');
    if '|' !in i && '|' !in j && CompositeKey(i, k) == CompositeKey(j, l) {
      OneReading(i, k, j, l, '|');
    }
  }

  lemma CompositeKeysCanCollide()
    ensures CompositeKey("a|b", "c") == CompositeKey("a", "b|c")
  {
    assert "a|b" == "a" + ['|'] + "b" && "b|c" == "b" + ['|'] + "c";
    CompositeKeyCollisions("a", "b|c", "a|b", "c");
  }

  // ---- Claims as values, most recent first -----------------------------------

  datatype Entry = Entry(key: string, expiresAt: int)

  /** The claims without the one on `key`. */
  function Without(es: seq<Entry>, key: string): (r: seq<Entry>)
    ensures |es| - 1 <= |r| <= |es|
  {
    if es == [] then []
    else if es[0].key == key then es[1..]
    else [es[0]] + Without(es[1..], key)
  }

  predicate Live(es: seq<Entry>, key: string, now: int) {
    exists i :: 0 <= i < |es| && es[i].key == key && now < es[i].expiresAt
  }

  /** Oldest claims leave until there is room for one more. */
  function RoomForOne(es: seq<Entry>, max: nat): seq<Entry>
    requires max >= 1
  {
    if |es| >= max then es[..max - 1] else es
  }

  function InFront(es: seq<Entry>, max: nat, e: Entry): seq<Entry>
    requires max >= 1
  {
    [e] + RoomForOne(es, max)
  }

  function Claim(es: seq<Entry>, max: nat, ttl: int, key: string, now: int): seq<Entry>
    requires max >= 1
  {
    InFront(Without(es, key), max, Entry(key, now + ttl))
  }

  ghost predicate DistinctKeys(es: seq<Entry>) {
    forall i, j | 0 <= i < j < |es| :: es[i].key != es[j].key
  }

  lemma {:induction false} WithoutAt(es: seq<Entry>, i: nat)
    requires i < |es| && DistinctKeys(es)
    ensures Without(es, es[i].key) == es[..i] + es[i + 1..]
  {
    if i > 0 {
      var tail := es[1..];
      assert DistinctKeys(tail);
      WithoutAt(tail, i - 1);
      assert tail[i - 1] == es[i];
      assert es[..i] == [es[0]] + tail[..i - 1] && es[i + 1..] == tail[i..];
    }
  }

  lemma {:induction false} WithoutAbsent(es: seq<Entry>, key: string)
    requires forall e <- es :: e.key != key
    ensures Without(es, key) == es
  {
    if es != [] {
      WithoutAbsent(es[1..], key);
      assert es == [es[0]] + es[1..];
    }
  }

  /** `r` is `es` without its entry on `key`, if it has one: every other entry stays, in its order. */
  ghost predicate Removed(es: seq<Entry>, key: string, r: seq<Entry>) {
    && (forall e <- r :: e.key != key)
    && ((forall e <- es :: e.key != key) ==> r == es)
    && (forall i | 0 <= i < |es| && es[i].key == key :: r == es[..i] + es[i + 1..])
  }

  lemma WithoutRemoves(es: seq<Entry>, key: string)
    requires DistinctKeys(es)
    ensures Removed(es, key, Without(es, key))
  {
    if i :| 0 <= i < |es| && es[i].key == key {
      WithoutAt(es, i);
    } else {
      WithoutAbsent(es, key);
    }
  }

  // ---- The tracker -------------------------------------------------------------

  /** A list element; the map points at these. */
  class Element {
    const key: string
    const expiresAt: int

    constructor (key: string, expiresAt: int)
      ensures this.key == key && this.expiresAt == expiresAt
    {
      this.key := key;
      this.expiresAt := expiresAt;
    }
  }

  ghost function EntriesOf(order: seq<Element>): (es: seq<Entry>)
    ensures |es| == |order|
    ensures forall i | 0 <= i < |order| :: es[i] == Entry(order[i].key, order[i].expiresAt)
  {
    seq(|order|, i requires 0 <= i < |order| => Entry(order[i].key, order[i].expiresAt))
  }

  class IdempotencyTracker {
    const ttl: int
    const maxEntries: nat
    var entries: map<string, Element>
    var order: seq<Element>
    ghost var contents: seq<Entry>

    /** The map and the list hold the same elements, each under its own key, and there is room. */
    ghost predicate Valid()
      reads this
    {
      && 1 <= maxEntries && |order| <= maxEntries
      && Indexed(entries, order)
      && contents == EntriesOf(order)
    }

    static ghost predicate Indexed(entries: map<string, Element>, order: seq<Element>) {
      && (forall k <- entries :: entries[k] in order && entries[k].key == k)
      && (forall e <- order :: e.key in entries && entries[e.key] == e)
      && (forall i, j | 0 <= i < j < |order| :: order[i] != order[j])
    }

    constructor (ttl: int, maxEntries: int)
      ensures Valid() && contents == []
      ensures this.ttl == ttl && this.maxEntries == (if maxEntries <= 0 then 10_000 else maxEntries)
    {
      this.ttl := ttl;
      this.maxEntries := if maxEntries <= 0 then 10_000 else maxEntries;
      this.entries := map[];
      this.order := [];
      this.contents := [];
    }

    lemma KeysAreDistinct()
      requires Valid()
      ensures DistinctKeys(contents)
    {
      forall i, j | 0 <= i < j < |order| ensures order[i].key != order[j].key {
        assert order[i] in order && order[j] in order;
      }
    }

    static lemma IndexedWithout(entries: map<string, Element>, order: seq<Element>, i: nat)
      requires Indexed(entries, order) && i < |order|
      ensures Indexed(entries - {order[i].key}, order[..i] + order[i + 1..])
    {
      var order' := order[..i] + order[i + 1..];
      assert forall j | 0 <= j < |order'| :: order'[j] == order[if j < i then j else j + 1];
      forall e | e in order ensures e == order[i] || e in order' {
        var j :| 0 <= j < |order| && order[j] == e;
        assert j < i ==> order'[j] == e;
        assert j > i ==> order'[j - 1] == e;
      }
    }

    static lemma EntriesWithout(order: seq<Element>, i: nat)
      requires i < |order| && DistinctKeys(EntriesOf(order))
      ensures EntriesOf(order[..i] + order[i + 1..]) == Without(EntriesOf(order), order[i].key)
      ensures i == |order| - 1 ==> Without(EntriesOf(order), order[i].key) == EntriesOf(order)[..i]
    {
      WithoutAt(EntriesOf(order), i);
    }

    /** Where the element stands: nowhere else, as no element is listed twice. */
    ghost function Position(e: Element): (i: nat)
      requires e in order
      reads this
      ensures i < |order| && order[i] == e
    {
      var i :| 0 <= i < |order| && order[i] == e; i
    }

    method RemoveLocked(e: Element)
      requires Valid() && e in order
      modifies this
      ensures Valid()
      ensures contents == Without(old(contents), e.key)
      ensures entries == old(entries) - {e.key} && |order| == old(|order|) - 1
      ensures e == old(order[|order| - 1]) ==> contents == old(contents[..|order| - 1])
    {
      var i :| 0 <= i < |order| && order[i] == e;
      RemoveAt(i);
    }

    /** Takes the element at `i` out of the list and the map. */
    method RemoveAt(i: nat)
      requires Valid() && i < |order|
      modifies this
      ensures Valid()
      ensures contents == Without(old(contents), old(order)[i].key)
      ensures entries == old(entries) - {old(order)[i].key} && |order| == old(|order|) - 1
      ensures i == old(|order|) - 1 ==> contents == old(contents)[..i]
    {
      KeysAreDistinct();
      IndexedWithout(entries, order, i);
      EntriesWithout(order, i);
      entries := entries - {order[i].key};
      order := order[..i] + order[i + 1..];
      contents := EntriesOf(order);
    }

    /** The eviction loop of `Acquire`. */
    method MakeRoom()
      requires Valid()
      modifies this
      ensures Valid() && |order| < maxEntries
      ensures contents == RoomForOne(old(contents), maxEntries)
      ensures entries.Keys <= old(entries).Keys
    {
      ghost var cleared := contents;
      while |order| >= maxEntries
        invariant Valid() && entries.Keys <= old(entries).Keys
        invariant |order| <= |cleared| && contents == cleared[..|order|]
        invariant |order| == |cleared| || |order| == maxEntries - 1
        decreases |order|
      {
        RemoveLocked(order[|order| - 1]);
      }
    }

    /** Takes out whatever claim there is on `full`. */
    method Drop(full: string)
      requires Valid()
      modifies this
      ensures Valid() && full !in entries
      ensures contents == Without(old(contents), full)
    {
      Lookup(full);
      if full in entries {
        RemoveLocked(entries[full]);
      } else {
        WithoutAbsent(contents, full);
      }
    }

    /** Evicts until there is room and puts the claim in front. */
    method Insert(full: string, expiresAt: int)
      requires Valid() && full !in entries
      modifies this
      ensures Valid()
      ensures contents == InFront(old(contents), maxEntries, Entry(full, expiresAt))
    {
      MakeRoom();
      Push(full, expiresAt);
    }

    method Replace(full: string, expiresAt: int)
      requires Valid()
      modifies this
      ensures Valid()
      ensures contents == InFront(Without(old(contents), full), maxEntries, Entry(full, expiresAt))
    {
      Drop(full);
      Insert(full, expiresAt);
    }

    /** `Acquire` past its empty-key test: refused exactly while a claim is live, else the claim is made on top. */
    method AcquireFull(full: string, now: int) returns (ok: bool)
      requires Valid()
      modifies this
      ensures Valid()
      ensures ok == !Live(old(contents), full, now)
      ensures ok ==> contents == Claim(old(contents), maxEntries, ttl, full, now)
      ensures !ok ==> contents == old(contents)
    {
      LookupTellsLive(full, now);
      if full in entries && now < entries[full].expiresAt {
        return false;
      }
      Replace(full, now + ttl);
      ok := true;
    }

    method Acquire(instance: string, key: string, now: int) returns (ok: bool)
      requires Valid()
      modifies this
      ensures Valid()
      ensures ok <==> key == "" || forall e <- old(contents) :: e.key == instance + "|" + key ==> now >= e.expiresAt
      ensures ok && key != "" ==>
                contents != [] && contents[0] == Entry(instance + "|" + key, now + ttl)
                && contents[1..] <= Without(old(contents), instance + "|" + key)
      ensures ok && key != "" ==>
                Removed(old(contents), instance + "|" + key, Without(old(contents), instance + "|" + key))
      ensures !ok || key == "" ==> contents == old(contents)
      ensures contents == After(old(contents), maxEntries, ttl, Op.Acquire(instance, key, now))
    {
      if key == "" {
        return true;
      }
      KeysAreDistinct();
      WithoutRemoves(contents, CompositeKey(instance, key));
      ok := AcquireFull(CompositeKey(instance, key), now);
    }

    /** The map answers for the list. */
    lemma Lookup(full: string)
      requires Valid()
      ensures full !in entries ==> forall x <- contents :: x.key != full
      ensures full in entries ==> entries[full] in order && entries[full].key == full
    {
      forall x | x in contents && x.key == full
        ensures full in entries
      {
        var i :| 0 <= i < |order| && contents[i] == x;
        assert order[i] in order;
      }
    }

    lemma LookupTellsLive(full: string, now: int)
      requires Valid()
      ensures Live(contents, full, now) <==> full in entries && now < entries[full].expiresAt
    {
      if full in entries {
        var i := Position(entries[full]);
        assert contents[i] == Entry(full, entries[full].expiresAt);
      }
      if i :| 0 <= i < |order| && contents[i].key == full && now < contents[i].expiresAt {
        assert order[i] in order;
      }
    }

    static lemma IndexedWith(entries: map<string, Element>, order: seq<Element>, e: Element)
      requires Indexed(entries, order) && e.key !in entries
      ensures Indexed(entries[e.key := e], [e] + order)
    {
      assert forall i | 1 <= i < |order| + 1 :: ([e] + order)[i] == order[i - 1];
    }

    static lemma EntriesWith(order: seq<Element>, e: Element)
      ensures EntriesOf([e] + order) == [Entry(e.key, e.expiresAt)] + EntriesOf(order)
    {
    }

    method Push(full: string, expiresAt: int)
      requires Valid() && full !in entries && |order| < maxEntries
      modifies this
      ensures Valid()
      ensures contents == [Entry(full, expiresAt)] + old(contents)
    {
      var e := new Element(full, expiresAt);
      IndexedWith(entries, order, e);
      EntriesWith(order, e);
      order := [e] + order;
      entries := entries[full := e];
      contents := [Entry(full, expiresAt)] + contents;
    }

    method Serve(op: Op) returns (ok: bool)
      requires Valid()
      modifies this
      ensures Valid() && contents == After(old(contents), maxEntries, ttl, op)
      ensures op.Acquire? && op.key != "" ==> ok == Granted(old(contents), op)
    {
      ok := true;
      match op {
        case Acquire(instance, key, now) => ok := Acquire(instance, key, now);
        case Release(instance, key) => Release(instance, key);
      }
    }

    method Release(instance: string, key: string)
      requires Valid()
      modifies this
      ensures Valid()
      ensures key == "" ==> contents == old(contents)
      ensures key != "" ==> Removed(old(contents), instance + "|" + key, contents)
      ensures contents == After(old(contents), maxEntries, ttl, Op.Release(instance, key))
    {
      if key == "" {
        return;
      }
      KeysAreDistinct();
      WithoutRemoves(contents, CompositeKey(instance, key));
      Drop(CompositeKey(instance, key));
    }
  }

  // ---- Histories -----------------------------------------------------------------

  datatype Op = Acquire(instance: string, key: string, now: int) | Release(instance: string, key: string)

  function Full(op: Op): string {
    CompositeKey(op.instance, op.key)
  }

  /** The operation is a tracked `Acquire` that succeeds on these claims. */
  predicate Granted(es: seq<Entry>, op: Op) {
    op.Acquire? && op.key != "" && !Live(es, Full(op), op.now)
  }

  function After(es: seq<Entry>, max: nat, ttl: int, op: Op): seq<Entry>
    requires max >= 1
  {
    if op.key == "" then es
    else if op.Release? then Without(es, Full(op))
    else if Granted(es, op) then Claim(es, max, ttl, Full(op), op.now)
    else es
  }

  /** The claims after a history of operations, as the tracker's methods leave them. */
  function Claims(max: nat, ttl: int, ops: seq<Op>): seq<Entry>
    requires max >= 1
  {
    if ops == [] then [] else After(Claims(max, ttl, ops[..|ops| - 1]), max, ttl, ops[|ops| - 1])
  }

  predicate AnswersRightly(max: nat, ttl: int, ops: seq<Op>, i: nat, ok: bool)
    requires max >= 1 && i < |ops|
  {
    ops[i].Acquire? && ops[i].key != "" ==> ok == GrantedAt(max, ttl, ops, i)
  }

  /** A tracker driven through a history holds that history's claims and grants what the history grants. */
  method Replay(t: IdempotencyTracker, ops: seq<Op>) returns (granted: seq<bool>)
    requires t.Valid() && t.contents == []
    modifies t
    ensures t.Valid() && t.contents == Claims(t.maxEntries, t.ttl, ops)
    ensures |granted| == |ops|
    ensures forall i | 0 <= i < |ops| :: AnswersRightly(t.maxEntries, t.ttl, ops, i, granted[i])
  {
    granted := [];
    for n := 0 to |ops|
      invariant t.Valid() && t.contents == Claims(t.maxEntries, t.ttl, ops[..n])
      invariant |granted| == n
      invariant forall i | 0 <= i < n :: AnswersRightly(t.maxEntries, t.ttl, ops, i, granted[i])
    {
      ClaimsSnoc(t.maxEntries, t.ttl, ops, n);
      var ok := t.Serve(ops[n]);
      assert AnswersRightly(t.maxEntries, t.ttl, ops, n, ok);
      granted := granted + [ok];
    }
    assert ops[..|ops|] == ops;
  }

  predicate GrantedAt(max: nat, ttl: int, ops: seq<Op>, i: nat)
    requires max >= 1 && i < |ops|
  {
    Granted(Claims(max, ttl, ops[..i]), ops[i])
  }

  /** How many `Acquire`s succeed at positions from `i` up to `j`. */
  function Grants(max: nat, ttl: int, ops: seq<Op>, i: nat, j: nat): nat
    requires max >= 1 && i <= j <= |ops|
  {
    if i == j then 0 else Grants(max, ttl, ops, i, j - 1) + (if GrantedAt(max, ttl, ops, j - 1) then 1 else 0)
  }

  predicate ReleasedBetween(ops: seq<Op>, i: nat, j: nat, key: string)
    requires i <= j <= |ops|
  {
    exists m | i < m < j :: ops[m].Release? && ops[m].key != "" && Full(ops[m]) == key
  }

  lemma {:induction false} SurvivesWithout(es: seq<Entry>, key: string, p: nat) returns (q: nat)
    requires p < |es| && es[p].key != key
    ensures q <= p && q < |Without(es, key)| && Without(es, key)[q] == es[p]
  {
    if es[0].key == key {
      q := p - 1;
    } else if p == 0 {
      q := 0;
    } else {
      q := SurvivesWithout(es[1..], key, p - 1);
      q := q + 1;
    }
  }

  lemma ClaimsSnoc(max: nat, ttl: int, ops: seq<Op>, j: nat)
    requires max >= 1 && j < |ops|
    ensures Claims(max, ttl, ops[..j + 1]) == After(Claims(max, ttl, ops[..j]), max, ttl, ops[j])
  {
    assert ops[..j + 1][..j] == ops[..j];
  }

  /** The claim made at `i` sits at most as deep as the number of claims made since. */
  ghost predicate Held(es: seq<Entry>, claim: Entry, depth: nat) {
    exists p :: 0 <= p <= depth && p < |es| && es[p] == claim
  }

  lemma HeldStep(es: seq<Entry>, max: nat, ttl: int, op: Op, claim: Entry, depth: nat)
    requires max >= 1 && Held(es, claim, depth)
    requires op.Release? && op.key != "" ==> Full(op) != claim.key
    requires Granted(es, op) ==> Full(op) != claim.key
    ensures var depth' := depth + (if Granted(es, op) then 1 else 0);
            Held(After(es, max, ttl, op), claim, depth') || depth' >= max
  {
    var p :| 0 <= p <= depth && p < |es| && es[p] == claim;
    if op.key != "" && (op.Release? || Granted(es, op)) {
      var q := SurvivesWithout(es, Full(op), p);
      if Granted(es, op) {
        var rest := RoomForOne(Without(es, Full(op)), max);
        if q < |rest| {
          assert After(es, max, ttl, op)[q + 1] == claim;
        }
      }
    }
  }

  lemma ClaimIsHeld(es: seq<Entry>, max: nat, ttl: int, op: Op)
    requires max >= 1 && Granted(es, op)
    ensures Held(After(es, max, ttl, op), Entry(Full(op), op.now + ttl), 0)
  {
    assert After(es, max, ttl, op)[0] == Entry(Full(op), op.now + ttl);
  }

  /** The operation takes the claim on `key` away, or makes it anew. */
  predicate Disturbs(max: nat, ttl: int, ops: seq<Op>, m: nat, key: string)
    requires max >= 1 && m < |ops|
  {
    Full(ops[m]) == key && ops[m].key != "" && (ops[m].Release? || GrantedAt(max, ttl, ops, m))
  }

  lemma {:induction false} HeldUntil(max: nat, ttl: int, ops: seq<Op>, i: nat, j: nat, depth: nat)
    requires max >= 1 && i < j <= |ops| && GrantedAt(max, ttl, ops, i) && depth == Grants(max, ttl, ops, i + 1, j)
    requires forall m | i < m < j :: !Disturbs(max, ttl, ops, m, Full(ops[i]))
    ensures depth >= max || Held(Claims(max, ttl, ops[..j]), Entry(Full(ops[i]), ops[i].now + ttl), depth)
    decreases j
  {
    var claim := Entry(Full(ops[i]), ops[i].now + ttl);
    var es := Claims(max, ttl, ops[..j - 1]);
    ClaimsSnoc(max, ttl, ops, j - 1);
    if j == i + 1 {
      ClaimIsHeld(es, max, ttl, ops[i]);
    } else {
      var before := Grants(max, ttl, ops, i + 1, j - 1);
      HeldUntil(max, ttl, ops, i, j - 1, before);
      assert !Disturbs(max, ttl, ops, j - 1, claim.key);
      if before < max {
        HeldStep(es, max, ttl, ops[j - 1], claim, before);
      }
    }
  }

  predicate Monotone(ops: seq<Op>) {
    forall i, j | 0 <= i < j < |ops| && ops[i].Acquire? && ops[j].Acquire? :: ops[i].now <= ops[j].now
  }

  lemma WindowBetweenNeighbours(max: nat, ttl: int, ops: seq<Op>, i: nat, j: nat)
    requires max >= 1 && i < j < |ops| && GrantedAt(max, ttl, ops, i) && GrantedAt(max, ttl, ops, j)
    requires Full(ops[i]) == Full(ops[j])
    requires forall m | i < m < j :: !(GrantedAt(max, ttl, ops, m) && Full(ops[m]) == Full(ops[i]))
    ensures ops[j].now >= ops[i].now + ttl
            || ReleasedBetween(ops, i, j, Full(ops[i]))
            || Grants(max, ttl, ops, i + 1, j) >= max
  {
    if !ReleasedBetween(ops, i, j, Full(ops[i])) {
      forall m | i < m < j ensures !Disturbs(max, ttl, ops, m, Full(ops[i])) {
      }
      HeldUntil(max, ttl, ops, i, j, Grants(max, ttl, ops, i + 1, j));
    }
  }

  lemma {:induction false} GrantsGrow(max: nat, ttl: int, ops: seq<Op>, i: nat, j: nat, k: nat)
    requires max >= 1 && i <= j <= k <= |ops|
    ensures Grants(max, ttl, ops, i, j) <= Grants(max, ttl, ops, i, k)
  {
    if j < k {
      GrantsGrow(max, ttl, ops, i, j, k - 1);
    }
  }

  /** The idempotency window: between two successful `Acquire`s of one composite key the TTL elapsed,
      the key was released, or at least `max` claims were made. */
  lemma {:induction false} IdempotencyWindow(max: nat, ttl: int, ops: seq<Op>, i: nat, j: nat)
    requires max >= 1 && i < j < |ops| && Monotone(ops)
    requires GrantedAt(max, ttl, ops, i) && GrantedAt(max, ttl, ops, j) && Full(ops[i]) == Full(ops[j])
    ensures ops[j].now >= ops[i].now + ttl
            || ReleasedBetween(ops, i, j, Full(ops[i]))
            || Grants(max, ttl, ops, i + 1, j) >= max
    decreases j
  {
    if m :| i < m < j && GrantedAt(max, ttl, ops, m) && Full(ops[m]) == Full(ops[i]) {
      IdempotencyWindow(max, ttl, ops, i, m);
      GrantsGrow(max, ttl, ops, i + 1, m, j);
    } else {
      WindowBetweenNeighbours(max, ttl, ops, i, j);
    }
  }

  /** The claim was granted at `i` and nothing has taken it away by `j`. */
  ghost predicate Claimed(max: nat, ttl: int, ops: seq<Op>, i: nat, j: nat, e: Entry)
    requires max >= 1
  {
    && i < j <= |ops| && GrantedAt(max, ttl, ops, i) && e == Entry(Full(ops[i]), ops[i].now + ttl)
    && forall m | i < m < j :: !Disturbs(max, ttl, ops, m, e.key)
  }

  /** Every claim held comes from a grant that was neither released nor renewed since. */
  lemma {:induction false} ClaimsHaveGrants(max: nat, ttl: int, ops: seq<Op>, j: nat, e: Entry) returns (i: nat)
    requires max >= 1 && j <= |ops| && e in Claims(max, ttl, ops[..j])
    ensures Claimed(max, ttl, ops, i, j, e)
    decreases j
  {
    assert j > 0;
    var before := ops[..j - 1];
    var es, op := Claims(max, ttl, before), ops[j - 1];
    ClaimsSnoc(max, ttl, ops, j - 1);
    ClaimsStayBounded(max, ttl, before);
    if Granted(es, op) && e == Entry(Full(op), op.now + ttl) {
      i := j - 1;
    } else {
      OldClaim(es, max, ttl, op, e);
      i := ClaimsHaveGrants(max, ttl, ops, j - 1, e);
      ClaimedStays(max, ttl, ops, i, j - 1, e);
    }
  }

  lemma ClaimedStays(max: nat, ttl: int, ops: seq<Op>, i: nat, j: nat, e: Entry)
    requires max >= 1 && Claimed(max, ttl, ops, i, j, e) && j < |ops| && !Disturbs(max, ttl, ops, j, e.key)
    ensures Claimed(max, ttl, ops, i, j + 1, e)
  {
  }

  /** A claim an operation does not make was there before, and is on another key if the operation touches one. */
  lemma OldClaim(es: seq<Entry>, max: nat, ttl: int, op: Op, e: Entry)
    requires max >= 1 && DistinctKeys(es) && e in After(es, max, ttl, op)
    requires !(Granted(es, op) && e == Entry(Full(op), op.now + ttl))
    ensures e in es
    ensures op.key != "" && (op.Release? || Granted(es, op)) ==> e.key != Full(op)
  {
    WithoutRemoves(es, Full(op));
  }

  /** A refusal has its reason: an earlier grant of the same key, still within its TTL, that was not released since. So
      an absent, released or expired claim is always granted. */
  lemma RefusalHasClaim(max: nat, ttl: int, ops: seq<Op>, j: nat) returns (i: nat)
    requires max >= 1 && j < |ops| && ops[j].Acquire? && ops[j].key != "" && !GrantedAt(max, ttl, ops, j)
    ensures i < j && GrantedAt(max, ttl, ops, i) && Full(ops[i]) == ops[j].instance + "|" + ops[j].key
    ensures ops[j].now < ops[i].now + ttl && !ReleasedBetween(ops, i, j, Full(ops[i]))
  {
    var es := Claims(max, ttl, ops[..j]);
    var p :| 0 <= p < |es| && es[p].key == Full(ops[j]) && ops[j].now < es[p].expiresAt;
    i := ClaimsHaveGrants(max, ttl, ops, j, es[p]);
    forall m | i < m < j ensures !(ops[m].Release? && ops[m].key != "" && Full(ops[m]) == Full(ops[i])) {
      assert !Disturbs(max, ttl, ops, m, es[p].key);
    }
  }

  /** A released key can be claimed again at once. */
  lemma ReleasedIsGranted(max: nat, ttl: int, ops: seq<Op>, i: nat, j: nat)
    requires max >= 1 && i < j < |ops| && ops[i].Release? && ops[i].key != ""
    requires ops[j].Acquire? && ops[j].key != "" && Full(ops[i]) == Full(ops[j])
    requires forall m | i < m < j && GrantedAt(max, ttl, ops, m) :: Full(ops[m]) != Full(ops[j])
    ensures GrantedAt(max, ttl, ops, j)
  {
    if !GrantedAt(max, ttl, ops, j) {
      var g := RefusalHasClaim(max, ttl, ops, j);
    }
  }

  /** The capacity is never exceeded and no key is claimed twice. */
  lemma {:induction false} ClaimsStayBounded(max: nat, ttl: int, ops: seq<Op>)
    requires max >= 1
    ensures |Claims(max, ttl, ops)| <= max && DistinctKeys(Claims(max, ttl, ops))
  {
    if ops != [] {
      var es, op := Claims(max, ttl, ops[..|ops| - 1]), ops[|ops| - 1];
      ClaimsStayBounded(max, ttl, ops[..|ops| - 1]);
      WithoutStaysDistinct(es, Full(op));
    }
  }

  lemma {:induction false} WithoutStaysDistinct(es: seq<Entry>, key: string)
    requires DistinctKeys(es)
    ensures DistinctKeys(Without(es, key)) && forall e <- Without(es, key) :: e.key != key
  {
    if i :| 0 <= i < |es| && es[i].key == key {
      WithoutAt(es, i);
    } else {
      WithoutAbsent(es, key);
    }
  }
}
