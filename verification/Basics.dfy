/** Values, text and separators shared by every other module. */
module Basics {

  datatype Option<+T> = None | Some(value: T)

  /** Go's `unicode.IsSpace`. */
  predicate IsSpace(c: char) {
    || '\t' <= c <= '\r' || c == ' ' || c == '\U{85}' || c == '\U{A0}' || c == '\U{1680}'
    || '\U{2000}' <= c <= '\U{200A}' || c == '\U{2028}' || c == '\U{2029}' || c == '\U{202F}'
    || c == '\U{205F}' || c == '\U{3000}'
  }

  /** The white space of the Unicode standard, by code point. */
  lemma SpacesAre(c: char)
    ensures IsSpace(c) <==>
            || c as int in {9, 10, 11, 12, 13, 32, 0x85, 0xA0, 0x1680, 0x2028, 0x2029, 0x202F, 0x205F, 0x3000}
            || 0x2000 <= c as int <= 0x200A
  {
  }

  predicate Blank(s: string) { forall c <- s :: IsSpace(c) }

  /** `r` is the stretch of `s` between blanks. */
  ghost predicate BetweenBlanks(s: string, r: string) {
    exists a: string, b: string :: s == a + r + b && Blank(a) && Blank(b)
  }

  predicate NoBlankEnds(r: string) {
    r != "" ==> !IsSpace(r[0]) && !IsSpace(r[|r| - 1])
  }

  /** `strings.TrimSpace`: the one stretch between blanks without blank ends. */
  function Trim(s: string): (r: string)
    ensures BetweenBlanks(s, r) && NoBlankEnds(r)
    ensures r == "" <==> Blank(s)
    ensures s != "" && !IsSpace(s[0]) && !IsSpace(s[|s| - 1]) ==> r == s
    ensures forall c <- r :: c in s
  {
    if s == "" then
      assert s == "" + s + "" && Blank("");
      s
    else if IsSpace(s[0]) then
      assert s == [s[0]] + s[1..];
      BlankInFront(s, Trim(s[1..]));
      Trim(s[1..])
    else if IsSpace(s[|s| - 1]) then
      assert s == s[..|s| - 1] + [s[|s| - 1]];
      BlankBehind(s, Trim(s[..|s| - 1]));
      Trim(s[..|s| - 1])
    else
      assert s == "" + s + "" && Blank("");
      s
  }

  lemma BlankInFront(s: string, r: string)
    requires s != "" && IsSpace(s[0]) && BetweenBlanks(s[1..], r)
    ensures BetweenBlanks(s, r)
  {
    var a, b :| s[1..] == a + r + b && Blank(a) && Blank(b);
    var a' := [s[0]] + a;
    assert s == a' + r + b && Blank(a');
  }

  lemma BlankBehind(s: string, r: string)
    requires s != "" && IsSpace(s[|s| - 1]) && BetweenBlanks(s[..|s| - 1], r)
    ensures BetweenBlanks(s, r)
  {
    var a, b :| s[..|s| - 1] == a + r + b && Blank(a) && Blank(b);
    var b' := b + [s[|s| - 1]];
    assert s == a + r + b' && Blank(b');
  }

  /** The first and the last character that is not blank. */
  ghost predicate Core(s: string, i: nat, j: nat) {
    && i < j <= |s| && !IsSpace(s[i]) && !IsSpace(s[j - 1])
    && forall k | 0 <= k < |s| && !(i <= k < j) :: IsSpace(s[k])
  }

  lemma StretchIsCore(s: string, a: string, r: string, b: string)
    requires s == a + r + b && Blank(a) && Blank(b) && NoBlankEnds(r) && r != ""
    ensures Core(s, |a|, |a| + |r|) && r == s[|a|..|a| + |r|]
  {
    forall k | 0 <= k < |s| && !(|a| <= k < |a| + |r|) ensures IsSpace(s[k]) {
      assert s[k] in a || s[k] in b;
    }
  }

  lemma HasCore(s: string, r: string) returns (i: nat, j: nat)
    requires !Blank(s) && BetweenBlanks(s, r) && NoBlankEnds(r)
    ensures Core(s, i, j) && r == s[i..j]
  {
    var a, b :| s == a + r + b && Blank(a) && Blank(b);
    assert r == "" ==> s == a + b;
    StretchIsCore(s, a, r, b);
    i, j := |a|, |a| + |r|;
  }

  /** No other text is the trimmed one. */
  lemma TrimIsDetermined(s: string, r: string)
    ensures r == Trim(s) <==> BetweenBlanks(s, r) && NoBlankEnds(r)
  {
    if BetweenBlanks(s, r) && NoBlankEnds(r) {
      if Blank(s) {
        BlankHasNoCore(s, r);
      } else {
        var i, j := HasCore(s, r);
        var x, y := HasCore(s, Trim(s));
      }
    }
  }

  lemma BlankHasNoCore(s: string, r: string)
    requires Blank(s) && BetweenBlanks(s, r) && NoBlankEnds(r)
    ensures r == ""
  {
    var a, b :| s == a + r + b && Blank(a) && Blank(b);
    assert forall c <- r :: c in s;
  }

  predicate IsUpper(c: char) { 'A' <= c <= 'Z' }
  predicate IsLower(c: char) { 'a' <= c <= 'z' }
  predicate IsDigit(c: char) { '0' <= c <= '9' }

  function LowerChar(c: char): char {
    if IsUpper(c) then (c as int + 32) as char else c
  }

  /** `strings.ToLower`, exact on ASCII text. */
  function ToLower(s: string): (r: string)
    ensures |r| == |s|
    ensures forall i | 0 <= i < |s| :: r[i] == LowerChar(s[i])
  {
    seq(|s|, i requires 0 <= i < |s| => LowerChar(s[i]))
  }

  /** The second reading's left part is the longer: the first's, a separator, and a piece moved from the front of the
      first's right part. */
  ghost predicate LeftPartLonger(a: string, b: string, c: string, d: string, sep: char) {
    exists m: string :: c == a + [sep] + m && b == m + [sep] + d
  }

  /** Exactly when `left + sep + right` can be read in two ways. */
  lemma SeparatorReadings(a: string, b: string, c: string, d: string, sep: char)
    ensures a + [sep] + b == c + [sep] + d
       <==> (a == c && b == d) || LeftPartLonger(a, b, c, d, sep) || LeftPartLonger(c, d, a, b, sep)
  {
    if a + [sep] + b == c + [sep] + d {
      if |a| < |c| {
        ReadingsDiffer(a, b, c, d, sep);
      } else if |c| < |a| {
        ReadingsDiffer(c, d, a, b, sep);
      } else {
        assert a == (a + [sep] + b)[..|a|] && c == (c + [sep] + d)[..|a|];
        assert b == (a + [sep] + b)[|a| + 1..] && d == (c + [sep] + d)[|a| + 1..];
      }
    }
    if LeftPartLonger(a, b, c, d, sep) {
      LongerReadsSame(a, b, c, d, sep);
    }
    if LeftPartLonger(c, d, a, b, sep) {
      LongerReadsSame(c, d, a, b, sep);
    }
  }

  lemma LongerReadsSame(a: string, b: string, c: string, d: string, sep: char)
    requires LeftPartLonger(a, b, c, d, sep)
    ensures a + [sep] + b == c + [sep] + d
    ensures sep in c
  {
    var m :| c == a + [sep] + m && b == m + [sep] + d;
    assert c[|a|] == sep;
  }

  lemma ReadingsDiffer(a: string, b: string, c: string, d: string, sep: char)
    requires a + [sep] + b == c + [sep] + d
    requires |a| < |c|
    ensures LeftPartLonger(a, b, c, d, sep)
  {
    var whole := a + [sep] + b;
    var m := c[|a| + 1..];
    assert c == whole[..|c|];
    assert a == whole[..|a|] && whole[|a|] == sep;
    assert c == a + [sep] + m;
    assert b == whole[|a| + 1..] == m + [sep] + d;
  }

  /** With no separator in either left part there is only one reading. */
  lemma OneReading(a: string, b: string, c: string, d: string, sep: char)
    requires sep !in a && sep !in c
    requires a + [sep] + b == c + [sep] + d
    ensures a == c && b == d
  {
    SeparatorReadings(a, b, c, d, sep);
    if LeftPartLonger(a, b, c, d, sep) {
      LongerReadsSame(a, b, c, d, sep);
    }
    if LeftPartLonger(c, d, a, b, sep) {
      LongerReadsSame(c, d, a, b, sep);
    }
  }

  // ---- Weighted counts over a sequence ---------------------------------------

  function Total<T>(weight: T -> nat, items: seq<T>): nat {
    if items == [] then 0 else Total(weight, items[..|items| - 1]) + weight(items[|items| - 1])
  }

  lemma {:induction false} TotalUpdate<T>(weight: T -> nat, items: seq<T>, i: nat, x: T)
    requires i < |items|
    ensures Total(weight, items[i := x]) + weight(items[i]) == Total(weight, items) + weight(x)
  {
    var last := |items| - 1;
    if i == last {
      assert items[i := x][..last] == items[..last];
    } else {
      assert items[i := x][..last] == items[..last][i := x];
      TotalUpdate(weight, items[..last], i, x);
    }
  }

  lemma TotalSnoc<T>(weight: T -> nat, items: seq<T>, x: T)
    ensures Total(weight, items + [x]) == Total(weight, items) + weight(x)
  {
    assert (items + [x])[..|items|] == items;
  }

  lemma {:induction false} TotalOfNone<T>(weight: T -> nat, items: seq<T>)
    requires forall x <- items :: weight(x) == 0
    ensures Total(weight, items) == 0
  {
    if items != [] {
      TotalOfNone(weight, items[..|items| - 1]);
    }
  }
}
