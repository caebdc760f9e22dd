/** Timestamp and HMAC verification of a request (internal/webhook/signature.go).
    Go strings and byte slices are texts with one character per byte; the HMAC is a parameter. */
module Signature {
  import opened Basics

  type Byte = b: int | 0 <= b < 256
  type Mac = (string, string) -> seq<Byte>

  datatype Verdict =
    | Accepted
    | Malformed
    | InvalidSignature
    | TimestampMissing
    | TimestampMalformed
    | TimestampSkewed

  // ---- Base16 -------------------------------------------------------------

  function HexVal(c: char): (r: Option<int>)
    ensures r.Some? ==> 0 <= r.value < 16
  {
    if IsDigit(c) then Some(c as int - '0' as int)
    else if 'a' <= c <= 'f' then Some(c as int - 'a' as int + 10)
    else if 'A' <= c <= 'F' then Some(c as int - 'A' as int + 10)
    else None
  }

  /** The digits of base 16 (section 8 of RFC 4648), and their lower-case forms. */
  lemma HexValReads(c: char, v: nat)
    requires v < 16
    ensures HexVal(c) == Some(v) <==> c == "0123456789abcdef"[v] || c == "0123456789ABCDEF"[v]
  {
  }

  /** `hex.DecodeString`. */
  function HexDecode(s: string): Option<seq<Byte>> {
    if s == "" then Some([])
    else if |s| == 1 then None
    else
      var hi, lo := HexVal(s[0]), HexVal(s[1]);
      if hi.None? || lo.None? then None
      else
        var rest := HexDecode(s[2..]);
        if rest.None? then None else Some([(16 * hi.value + lo.value) as Byte] + rest.value)
  }

  function HexDigit(v: int): (c: char)
    requires 0 <= v < 16
    ensures HexVal(c) == Some(v)
  {
    if v < 10 then ('0' as int + v) as char else ('a' as int + v - 10) as char
  }

  /** The lower-case encoding signers are told to send. */
  function HexEncode(m: seq<Byte>): string {
    if m == [] then "" else [HexDigit(m[0] / 16), HexDigit(m[0] % 16)] + HexEncode(m[1..])
  }

  predicate PairSpells(hi: char, lo: char, b: int) {
    HexVal(hi).Some? && HexVal(lo).Some? && b == 16 * HexVal(hi).value + HexVal(lo).value
  }

  /** `h` spells the bytes `m` in base 16 (section 8 of RFC 4648), in either letter case. */
  ghost predicate Spells(h: string, m: seq<Byte>) {
    |h| == 2 * |m| && forall i | 0 <= i < |m| :: PairSpells(h[2 * i], h[2 * i + 1], m[i])
  }

  lemma SpellsByPairs(h: string, m: seq<Byte>)
    requires |h| >= 2 && m != []
    ensures Spells(h, m) <==> PairSpells(h[0], h[1], m[0]) && Spells(h[2..], m[1..])
  {
    if Spells(h, m) {
      assert PairSpells(h[2 * 0], h[2 * 0 + 1], m[0]);
      forall i | 0 <= i < |m| - 1 ensures PairSpells(h[2..][2 * i], h[2..][2 * i + 1], m[1..][i]) {
        assert m[1..][i] == m[i + 1];
      }
    }
    if PairSpells(h[0], h[1], m[0]) && Spells(h[2..], m[1..]) {
      forall i | 0 <= i < |m| ensures PairSpells(h[2 * i], h[2 * i + 1], m[i]) {
        if i > 0 {
          assert m[1..][i - 1] == m[i];
        }
      }
    }
  }

  lemma {:induction false} HexDecodeInvertsSpelling(h: string, m: seq<Byte>)
    ensures HexDecode(h) == Some(m) <==> Spells(h, m)
  {
    if |h| >= 2 && m != [] {
      SpellsByPairs(h, m);
      HexDecodeInvertsSpelling(h[2..], m[1..]);
      assert m == [m[0]] + m[1..];
    }
  }

  lemma {:induction false} EncodingSpells(m: seq<Byte>)
    ensures Spells(HexEncode(m), m)
  {
    if m != [] {
      EncodingSpells(m[1..]);
      var pair := [HexDigit(m[0] / 16), HexDigit(m[0] % 16)];
      assert (pair + HexEncode(m[1..]))[2..] == HexEncode(m[1..]);
      SpellsByPairs(pair + HexEncode(m[1..]), m);
    }
  }

  // ---- The signature ------------------------------------------------------

  const SIGNATURE_PREFIX := "sha256="

  function VerifyHMAC(mac: Mac, secret: string, canonical: string, received: string): Verdict {
    if !(SIGNATURE_PREFIX <= received) || received == SIGNATURE_PREFIX then Malformed
    else
      var want := HexDecode(received[|SIGNATURE_PREFIX|..]);
      if want.None? then Malformed
      else if mac(secret, canonical) != want.value then InvalidSignature
      else Accepted
  }

  /** The header is the scheme's prefix followed by a spelling of the bytes. */
  ghost predicate Carries(header: string, m: seq<Byte>) {
    exists h :: header == "sha256=" + h && Spells(h, m)
  }

  /** A header is accepted exactly when it is the prefix followed by a spelling of the MAC; it is malformed exactly when
      it spells no bytes. */
  lemma AcceptsExactlySpellings(mac: Mac, secret: string, canonical: string, received: string)
    requires mac(secret, canonical) != []
    ensures VerifyHMAC(mac, secret, canonical, received) == Accepted <==> Carries(received, mac(secret, canonical))
    ensures VerifyHMAC(mac, secret, canonical, received) == Malformed <==> forall m | Carries(received, m) :: m == []
    ensures VerifyHMAC(mac, secret, canonical, received) in {Accepted, Malformed, InvalidSignature}
  {
    Decoded(received);
    var m := mac(secret, canonical);
    if SIGNATURE_PREFIX <= received {
      var h := received[|SIGNATURE_PREFIX|..];
      assert received == SIGNATURE_PREFIX + h;
      HexDecodeInvertsSpelling(h, m);
    }
    if h :| received == SIGNATURE_PREFIX + h && Spells(h, m) {
      assert received[|SIGNATURE_PREFIX|..] == h;
      HexDecodeInvertsSpelling(h, m);
    }
  }

  /** What a header carries is what its rest decodes to. */
  lemma Decoded(received: string)
    ensures forall m :: Carries(received, m) <==>
                        SIGNATURE_PREFIX <= received && HexDecode(received[|SIGNATURE_PREFIX|..]) == Some(m)
    ensures SIGNATURE_PREFIX <= received && HexDecode(received[|SIGNATURE_PREFIX|..]).Some? ==>
            Carries(received, HexDecode(received[|SIGNATURE_PREFIX|..]).value)
    ensures SIGNATURE_PREFIX <= received && HexDecode(received[|SIGNATURE_PREFIX|..]) == Some([]) ==>
            received == SIGNATURE_PREFIX
  {
    forall m ensures Carries(received, m) <==>
                     SIGNATURE_PREFIX <= received && HexDecode(received[|SIGNATURE_PREFIX|..]) == Some(m)
    {
      if h :| received == "sha256=" + h && Spells(h, m) {
        assert received[|SIGNATURE_PREFIX|..] == h;
        HexDecodeInvertsSpelling(h, m);
      }
      if SIGNATURE_PREFIX <= received {
        assert received == "sha256=" + received[|SIGNATURE_PREFIX|..];
        HexDecodeInvertsSpelling(received[|SIGNATURE_PREFIX|..], m);
      }
    }
  }

  function CanonicalMessage(ts: string, body: string): string {
    "v0:" + ts + ":" + body
  }

  /** Exactly when two signed messages coincide. */
  lemma CanonicalCollisions(t: string, b: string, u: string, c: string)
    ensures CanonicalMessage(t, b) == CanonicalMessage(u, c) <==>
            (t == u && b == c) || LeftPartLonger(t, b, u, c, ':') || LeftPartLonger(u, c, t, b, ':')
  {
    assert CanonicalMessage(t, b)[3..] == t + [':'] + b;
    assert CanonicalMessage(u, c)[3..] == u + [':'] + c;
    assert CanonicalMessage(t, b) == "v0:" + (t + [':'] + b);
    assert CanonicalMessage(u, c) == "v0:" + (u + [':'] + c);
    SeparatorReadings(t, b, u, c, ':');
  }

  lemma CanonicalAloneIsAmbiguous()
    ensures CanonicalMessage("1:2", "x") == CanonicalMessage("1", "2:x")
  {
    assert "1:2" == "1" + [':'] + "2" && "2:x" == "2" + [':'] + "x";
    CanonicalCollisions("1", "2:x", "1:2", "x");
  }

  // ---- The timestamp ------------------------------------------------------

  const MIN64 := -0x8000_0000_0000_0000
  const MAX64 := 0x7fff_ffff_ffff_ffff
  const TWO64 := 0x1_0000_0000_0000_0000
  const SECOND := 1_000_000_000

  /** Seconds from year 1 to 1970, the offset between Go's internal and Unix time. */
  const UNIX_TO_INTERNAL := 62135596800

  function Digits(s: string): (r: Option<int>)
    ensures r.Some? <==> forall c <- s :: IsDigit(c)
    ensures r.Some? ==> r.value >= 0
  {
    if s == "" then Some(0)
    else
      assert s == s[..|s| - 1] + [s[|s| - 1]];
      var front := Digits(s[..|s| - 1]);
      var c := s[|s| - 1];
      if front.None? || !IsDigit(c) then None else Some(10 * front.value + (c as int - '0' as int))
  }

  /** `strconv.ParseInt(s, 10, 64)`. */
  function ParseInt(s: string): (r: Option<int>)
    ensures r.Some? ==> MIN64 <= r.value <= MAX64
    ensures r.Some? ==> ':' !in s
  {
    if s == "" then None
    else
      var signed := s[0] == '+' || s[0] == '-';
      var digits := if signed then s[1..] else s;
      assert signed ==> s == [s[0]] + digits;
      var n := Digits(digits);
      if digits == "" || n.None? then None
      else if s[0] == '-' then if n.value > -MIN64 then None else Some(-n.value)
      else if n.value > MAX64 then None else Some(n.value)
  }

  function Power10(n: nat): int { if n == 0 then 1 else 10 * Power10(n - 1) }

  /** The positional value of a decimal numeral. */
  function Value(s: string): int
    requires forall c <- s :: IsDigit(c)
  {
    if s == "" then 0 else (s[0] as int - '0' as int) * Power10(|s| - 1) + Value(s[1..])
  }

  lemma {:induction false} ValueSnoc(s: string)
    requires s != "" && forall c <- s :: IsDigit(c)
    ensures Value(s) == 10 * Value(s[..|s| - 1]) + (s[|s| - 1] as int - '0' as int)
  {
    if |s| > 1 {
      ValueSnoc(s[1..]);
      assert s[1..][..|s| - 2] == s[..|s| - 1][1..];
    }
  }

  lemma {:induction false} DigitsIsValue(s: string)
    requires forall c <- s :: IsDigit(c)
    ensures Digits(s) == Some(Value(s))
  {
    if s != "" {
      DigitsIsValue(s[..|s| - 1]);
      ValueSnoc(s);
    }
  }

  /** `s` is an optional sign and a decimal numeral, of value `n`. */
  ghost predicate Numeral(s: string, n: int) {
    exists d: string :: (d != "" && forall c <- d :: IsDigit(c))
                     && (((s == d || s == "+" + d) && n == Value(d)) || (s == "-" + d && n == -Value(d)))
  }

  /** The header is read exactly as a signed decimal numeral within an int64. */
  lemma ParsesExactlyNumerals(s: string, n: int)
    ensures ParseInt(s) == Some(n) <==> Numeral(s, n) && MIN64 <= n <= MAX64
  {
    if ParseInt(s) == Some(n) {
      var d := if s[0] == '+' || s[0] == '-' then s[1..] else s;
      assert s[0] == '+' ==> s == "+" + d;
      assert s[0] == '-' ==> s == "-" + d;
      DigitsIsValue(d);
    }
    if Numeral(s, n) && MIN64 <= n <= MAX64 {
      var d :| (d != "" && forall c <- d :: IsDigit(c))
               && (((s == d || s == "+" + d) && n == Value(d)) || (s == "-" + d && n == -Value(d)));
      DigitsIsValue(d);
      assert d[0] in d;
      assert s != d ==> s[1..] == d;
    }
  }

  function FormatNat(n: nat): (s: string)
    ensures s != "" && Digits(s) == Some(n)
  {
    var c := ('0' as int + n % 10) as char;
    if n < 10 then
      assert [c][..0] == "";
      [c]
    else
      var front := FormatNat(n / 10);
      assert (front + [c])[..|front|] == front;
      front + [c]
  }

  /** The decimal text a signer puts in the timestamp header. */
  function FormatInt(n: int): string {
    if n < 0 then "-" + FormatNat(-n) else FormatNat(n)
  }

  lemma ParseInvertsFormat(n: int)
    requires MIN64 <= n <= MAX64
    ensures ParseInt(FormatInt(n)) == Some(n)
  {
    if n < 0 {
      assert FormatInt(n)[1..] == FormatNat(-n);
    } else {
      assert FormatNat(n)[0] in FormatNat(n);
    }
  }

  /** A Go wall-clock time: whole seconds since year 1 in an int64, and nanoseconds. */
  datatype Time = Time(sec: int, nsec: int)

  predicate PlausibleClock(t: Time) {
    0 <= t.sec <= 0x4000_0000_0000_0000 && 0 <= t.nsec < SECOND
  }

  function Wrap64(x: int): int {
    (x - MIN64) % TWO64 + MIN64
  }

  /** `time.Unix(secs, 0)`, with the int64 wrap of its internal second count. */
  function Unix(secs: int): Time {
    Time(Wrap64(secs + UNIX_TO_INTERNAL), 0)
  }

  function Elapsed(t: Time, u: Time): int {
    (t.sec - u.sec) * SECOND + (t.nsec - u.nsec)
  }

  /** `t.Sub(u)`: the difference in nanoseconds, saturated to an int64. */
  function Sub(t: Time, u: Time): int {
    var d := Elapsed(t, u);
    if d < MIN64 then MIN64 else if d > MAX64 then MAX64 else d
  }

  /** Two's-complement negation: the minimum has no positive counterpart. */
  function Negate64(x: int): int {
    if x == MIN64 then MIN64 else -x
  }

  function VerifyTimestamp(header: string, now: Time, skew: int): Verdict {
    if header == "" then TimestampMissing
    else
      var secs := ParseInt(header);
      if secs.None? then TimestampMalformed
      else
        var delta := Sub(now, Unix(secs.value));
        var distance := if delta < 0 then Negate64(delta) else delta;
        if distance > skew then TimestampSkewed else Accepted
  }

  /** The documented rule, over unbounded time: the stamp lies in [now - skew, now + skew]. */
  predicate InWindow(secs: int, now: Time, skew: int) {
    var nowNanos := (now.sec - 62_135_596_800) * 1_000_000_000 + now.nsec;
    nowNanos - skew <= secs * 1_000_000_000 <= nowNanos + skew
  }

  /** The stamp is so far ahead of `now` that the difference saturates at the minimum Duration, which negation keeps. */
  predicate TooFarAhead(secs: int, now: Time) {
    && secs <= MAX64 - UNIX_TO_INTERNAL
    && (now.sec - UNIX_TO_INTERNAL - secs) * SECOND + now.nsec <= MIN64
  }

  predicate TooFarBehind(secs: int, now: Time) {
    secs > MAX64 - UNIX_TO_INTERNAL || (now.sec - UNIX_TO_INTERNAL - secs) * SECOND + now.nsec > MAX64
  }

  lemma ElapsedSince(secs: int, now: Time)
    requires MIN64 <= secs <= MAX64 && PlausibleClock(now)
    ensures secs <= MAX64 - UNIX_TO_INTERNAL ==>
            Elapsed(now, Unix(secs)) == (now.sec - UNIX_TO_INTERNAL - secs) * SECOND + now.nsec
    ensures secs > MAX64 - UNIX_TO_INTERNAL ==> Elapsed(now, Unix(secs)) > MAX64
  {
    var x := secs + UNIX_TO_INTERNAL;
    if secs <= MAX64 - UNIX_TO_INTERNAL {
      assert Wrap64(x) == x;
    } else {
      assert x - MIN64 == (x - TWO64 - MIN64) + TWO64;
      assert Wrap64(x) == x - TWO64;
    }
  }

  /** The timestamp check is the documented window exactly when the stamp is not so far ahead that the
      difference saturates at the minimum Duration (and, for the maximal skew, not out of range behind). */
  lemma TimestampWindow(header: string, now: Time, skew: int)
    requires PlausibleClock(now) && MIN64 <= skew <= MAX64
    requires ParseInt(header).Some?
    ensures var secs := ParseInt(header).value;
            (VerifyTimestamp(header, now, skew) == Accepted <==> InWindow(secs, now, skew))
            <==> !TooFarAhead(secs, now) && (skew == MAX64 ==> !TooFarBehind(secs, now))
    ensures TooFarAhead(ParseInt(header).value, now) ==> VerifyTimestamp(header, now, skew) == Accepted
  {
    ElapsedSince(ParseInt(header).value, now);
  }

  /** The stamp is a numeral in the documented window, or so far away that the difference saturates. */
  ghost predicate Stamped(header: string, now: Time, skew: int) {
    exists n | MIN64 <= n <= MAX64 ::
      && Numeral(header, n)
      && (InWindow(n, now, skew) || TooFarAhead(n, now) || (skew == MAX64 && TooFarBehind(n, now)))
  }

  lemma AcceptsExactlyStamps(header: string, now: Time, skew: int)
    requires PlausibleClock(now) && MIN64 <= skew <= MAX64
    ensures VerifyTimestamp(header, now, skew) == Accepted <==> Stamped(header, now, skew)
  {
    if ParseInt(header).Some? {
      ParsesExactlyNumerals(header, ParseInt(header).value);
      ElapsedSince(ParseInt(header).value, now);
    }
    forall n | MIN64 <= n <= MAX64 && Numeral(header, n) ensures ParseInt(header) == Some(n) {
      ParsesExactlyNumerals(header, n);
    }
  }

  /** A stamp three thousand years ahead of 2026 passes a five-minute window. */
  lemma FarFutureIsAccepted()
    ensures var now := Time(1_767_225_600 + UNIX_TO_INTERNAL, 0);
            && VerifyTimestamp(FormatInt(100_000_000_000), now, 300 * SECOND) == Accepted
            && !InWindow(100_000_000_000, now, 300 * SECOND)
  {
    ParseInvertsFormat(100_000_000_000);
    TimestampWindow(FormatInt(100_000_000_000), Time(1_767_225_600 + UNIX_TO_INTERNAL, 0), 300 * SECOND);
  }

  // ---- Both checks --------------------------------------------------------

  function Verify(mac: Mac, secret: string, sigHeader: string, tsHeader: string, body: string,
                  now: Time, skew: int): Verdict
  {
    var t := VerifyTimestamp(tsHeader, now, skew);
    if t != Accepted then t else VerifyHMAC(mac, secret, CanonicalMessage(tsHeader, body), sigHeader)
  }

  /** A request is accepted exactly when its stamp is and its header spells the MAC of its stamp and body; a stamp that
      fails is reported before the signature is looked at. */
  lemma VerifyAcceptsExactlySigned(mac: Mac, secret: string, sigHeader: string, tsHeader: string, body: string,
                                   now: Time, skew: int)
    ensures mac(secret, "v0:" + tsHeader + ":" + body) != [] ==>
            (Verify(mac, secret, sigHeader, tsHeader, body, now, skew) == Accepted <==>
               && VerifyTimestamp(tsHeader, now, skew) == Accepted
               && Carries(sigHeader, mac(secret, "v0:" + tsHeader + ":" + body)))
    ensures Verify(mac, secret, sigHeader, tsHeader, body, now, skew) == Accepted ==>
            Carries(sigHeader, mac(secret, "v0:" + tsHeader + ":" + body))
    ensures VerifyTimestamp(tsHeader, now, skew) != Accepted ==>
            Verify(mac, secret, sigHeader, tsHeader, body, now, skew) == VerifyTimestamp(tsHeader, now, skew)
  {
    Decoded(sigHeader);
  }

  /** Which stamps fail how. */
  lemma TimestampVerdicts(header: string, now: Time, skew: int)
    ensures VerifyTimestamp(header, now, skew) == TimestampMissing <==> header == ""
    ensures VerifyTimestamp(header, now, skew) == TimestampMalformed <==>
            header != "" && forall n | MIN64 <= n <= MAX64 :: !Numeral(header, n)
    ensures VerifyTimestamp(header, now, skew) in {Accepted, TimestampMissing, TimestampMalformed, TimestampSkewed}
  {
    forall n ensures ParseInt(header) == Some(n) <==> Numeral(header, n) && MIN64 <= n <= MAX64 {
      ParsesExactlyNumerals(header, n);
    }
  }

  /** The documented signing recipe. */
  function Sign(mac: Mac, secret: string, ts: string, body: string): string {
    SIGNATURE_PREFIX + HexEncode(mac(secret, CanonicalMessage(ts, body)))
  }

  /** A signed request is accepted whenever its timestamp lies in the window. */
  lemma SignedIsAccepted(mac: Mac, secret: string, body: string, secs: int, now: Time, skew: int)
    requires PlausibleClock(now) && 0 <= skew <= MAX64 && MIN64 <= secs <= MAX64
    requires InWindow(secs, now, skew)
    requires mac(secret, CanonicalMessage(FormatInt(secs), body)) != []
    ensures var ts := FormatInt(secs);
            Verify(mac, secret, Sign(mac, secret, ts, body), ts, body, now, skew) == Accepted
  {
    var ts := FormatInt(secs);
    var m := mac(secret, CanonicalMessage(ts, body));
    ParseInvertsFormat(secs);
    ElapsedSince(secs, now);
    EncodingSpells(m);
    assert Sign(mac, secret, ts, body) == SIGNATURE_PREFIX + HexEncode(m);
    AcceptsExactlySpellings(mac, secret, CanonicalMessage(ts, body), Sign(mac, secret, ts, body));
  }

  /** Among requests whose timestamp is accepted, the signed bytes determine the timestamp and the body. */
  lemma SignedBytesAreUnambiguous(t: string, b: string, u: string, c: string, now: Time, later: Time, skew: int)
    requires VerifyTimestamp(t, now, skew) == Accepted && VerifyTimestamp(u, later, skew) == Accepted
    requires CanonicalMessage(t, b) == CanonicalMessage(u, c)
    ensures t == u && b == c
  {
    assert CanonicalMessage(t, b)[3..] == t + [':'] + b;
    assert CanonicalMessage(u, c)[3..] == u + [':'] + c;
    OneReading(t, b, u, c, ':');
  }
}
