/** String helpers shared by the server and client models. Strings are
    sequences of characters; case folding and trimming are modelled on ASCII. */
module Text {

  predicate IsDigit(c: char) { '0' <= c <= '9' }

  predicate AllDigits(s: string) { forall i :: 0 <= i < |s| ==> IsDigit(s[i]) }

  /** The ASCII whitespace characters removed by both `trim()` and `strip()`.
      Python's `str.strip()` also removes the separators U+001C to U+001F,
      which `trim()` keeps; they are not whitespace here. */
  predicate IsSpace(c: char) {
    c == ' ' || c == '\t' || c == '\n' || c == '\r' || c == '\U{000B}' || c == '\U{000C}'
  }

  function Lower(c: char): char {
    if 'A' <= c <= 'Z' then (c as int + 32) as char else c
  }

  /** `toLowerCase()` / `lower()` on ASCII letters. */
  function ToLower(s: string): (r: string)
    ensures |r| == |s|
    ensures forall i :: 0 <= i < |s| ==> r[i] == Lower(s[i])
  {
    seq(|s|, i requires 0 <= i < |s| => Lower(s[i]))
  }

  function TrimStart(s: string): (r: string)
    ensures r == [] || !IsSpace(r[0])
    ensures |r| <= |s| && r == s[|s| - |r|..]
    ensures forall i :: 0 <= i < |s| - |r| ==> IsSpace(s[i])
  {
    if s != [] && IsSpace(s[0]) then TrimStart(s[1..]) else s
  }

  function TrimEnd(s: string): (r: string)
    ensures r == [] || !IsSpace(r[|r| - 1])
    ensures |r| <= |s| && r == s[..|r|]
    ensures forall i :: |r| <= i < |s| ==> IsSpace(s[i])
  {
    if s != [] && IsSpace(s[|s| - 1]) then TrimEnd(s[..|s| - 1]) else s
  }

  /** `trim()` / `strip()`. */
  function Trim(s: string): string {
    TrimEnd(TrimStart(s))
  }

  predicate IsPrefix(p: string, s: string) { |p| <= |s| && s[..|p|] == p }

  predicate OccursAt(q: string, s: string, i: int) {
    0 <= i && i + |q| <= |s| && s[i..i + |q|] == q
  }

  /** `includes(q)` / `q in s`. */
  predicate Contains(s: string, q: string) { exists i | 0 <= i <= |s| :: OccursAt(q, s, i) }

  /** `indexOf(q)` searching from position `from`: the first occurrence at or
      after `from`, or -1. */
  function IndexFrom(s: string, q: string, from: nat): (r: int)
    ensures r == -1 || (from <= r && OccursAt(q, s, r))
    ensures r == -1 ==> forall k :: from <= k ==> !OccursAt(q, s, k)
    ensures r != -1 ==> forall k :: from <= k < r ==> !OccursAt(q, s, k)
    decreases |s| - from
  {
    if from + |q| > |s| then -1
    else if s[from..from + |q|] == q then from
    else IndexFrom(s, q, from + 1)
  }

  function IndexOf(s: string, q: string): int {
    IndexFrom(s, q, 0)
  }

  lemma IndexOfFound(s: string, q: string)
    ensures IndexOf(s, q) != -1 <==> Contains(s, q)
    ensures IndexOf(s, q) >= -1
  {
  }

  /** `q` can be obtained from `s` by deleting characters. */
  predicate IsSubsequence(q: string, s: string)
    decreases |s|
  {
    if q == [] then true
    else if s == [] then false
    else if q[0] == s[0] then IsSubsequence(q[1..], s[1..])
    else IsSubsequence(q, s[1..])
  }

  lemma {:induction false} SubsequenceDropQueryHead(q: string, s: string)
    requires q != [] && IsSubsequence(q, s)
    ensures IsSubsequence(q[1..], s)
    decreases |s|, 0
  {
    if s != [] {
      if q[0] == s[0] {
        SubsequenceExtend(q[1..], s[1..], s[0]);
      } else {
        SubsequenceDropQueryHead(q, s[1..]);
        SubsequenceExtend(q[1..], s[1..], s[0]);
      }
      assert [s[0]] + s[1..] == s;
    }
  }

  lemma {:induction false} SubsequenceExtend(q: string, s: string, c: char)
    requires IsSubsequence(q, s)
    ensures IsSubsequence(q, [c] + s)
    decreases |s|, 1
  {
    var t := [c] + s;
    assert t[1..] == s;
    if q != [] && q[0] == c {
      SubsequenceDropQueryHead(q, s);
    }
  }

  lemma {:induction false} SubsequenceOfPrefixed(q: string, u: string, t: string)
    requires IsSubsequence(q, t)
    ensures IsSubsequence(q, u + t)
    decreases |u|
  {
    if u != [] {
      SubsequenceOfPrefixed(q, u[1..], t);
      assert u + t == [u[0]] + (u[1..] + t);
      SubsequenceExtend(q, u[1..] + t, u[0]);
    } else {
      assert u + t == t;
    }
  }

  lemma {:induction false} SubsequenceOfSelfPrefix(q: string, t: string)
    ensures IsSubsequence(q, q + t)
    decreases |q|
  {
    if q != [] {
      assert (q + t)[1..] == q[1..] + t;
      SubsequenceOfSelfPrefix(q[1..], t);
    }
  }

  /** A string that occurs contiguously in `s` is also a subsequence of `s`. */
  lemma ContainsIsSubsequence(s: string, q: string)
    requires Contains(s, q)
    ensures IsSubsequence(q, s)
  {
    var i :| 0 <= i <= |s| && OccursAt(q, s, i);
    assert i + |q| <= |s|;
    SubsequenceOfSelfPrefix(q, s[i + |q|..]);
    assert s == s[..i] + (q + s[i + |q|..]);
    SubsequenceOfPrefixed(q, s[..i], q + s[i + |q|..]);
  }

  lemma PrefixIsContained(p: string, s: string)
    requires IsPrefix(p, s)
    ensures Contains(s, p)
  {
    assert OccursAt(p, s, 0);
  }

  /** The text after the last `sep`, or all of `s` when `sep` does not occur:
      Python's `s.split(sep)[-1]`. */
  function LastSegment(s: string, sep: char): (r: string)
    ensures sep !in r
    ensures |r| <= |s| && r == s[|s| - |r|..]
    ensures |r| < |s| ==> s[|s| - |r| - 1] == sep
  {
    if s == [] then []
    else if s[|s| - 1] == sep then []
    else LastSegment(s[..|s| - 1], sep) + [s[|s| - 1]]
  }

  /** The text before the first `sep`, or all of `s`: Python's `s.split(sep)[0]`. */
  function FirstSegment(s: string, sep: char): (r: string)
    ensures sep !in r
    ensures |r| <= |s| && r == s[..|r|]
    ensures |r| < |s| ==> s[|r|] == sep
  {
    if s == [] then []
    else if s[0] == sep then []
    else [s[0]] + FirstSegment(s[1..], sep)
  }

  function DigitChar(d: nat): char
    requires d < 10
  {
    ('0' as int + d) as char
  }

  function DigitValue(c: char): nat
    requires IsDigit(c)
  {
    c as int - '0' as int
  }

  /** Decimal notation of a natural number, without leading zeros. */
  function NatToString(n: nat): (r: string)
    ensures AllDigits(r) && 1 <= |r|
    ensures n < 10 <==> |r| == 1
    ensures n >= 100 ==> |r| >= 3
    ensures n < 100 ==> |r| <= 2
  {
    if n < 10 then [DigitChar(n)] else NatToString(n / 10) + [DigitChar(n % 10)]
  }

  /** `String(i)` for an integer. */
  function IntToString(i: int): string {
    if i < 0 then "-" + NatToString(-i) else NatToString(i)
  }

  /** The value of a string of decimal digits (leading zeros allowed). */
  function DigitsValue(s: string): nat
    requires AllDigits(s)
  {
    if s == [] then 0 else DigitsValue(s[..|s| - 1]) * 10 + DigitValue(s[|s| - 1])
  }

  lemma {:induction false} NatToStringValue(n: nat)
    ensures DigitsValue(NatToString(n)) == n
  {
    var r := NatToString(n);
    if n >= 10 {
      NatToStringValue(n / 10);
      assert r[..|r| - 1] == NatToString(n / 10);
    }
  }

  /** `padStart(2, '0')`. */
  function PadStart2(s: string): (r: string)
    ensures |s| >= 2 ==> r == s
    ensures |s| < 2 ==> |r| == 2 && r[2 - |s|..] == s
  {
    if |s| >= 2 then s else if |s| == 1 then "0" + s else "00"
  }

  lemma PaddedDigitsValue(s: string)
    requires AllDigits(s)
    ensures AllDigits(PadStart2(s)) && DigitsValue(PadStart2(s)) == DigitsValue(s)
  {
    if |s| == 1 {
      var r := PadStart2(s);
      assert r[..1] == "0";
      assert r[..0] == [];
    } else if |s| == 0 {
      var r := PadStart2(s);
      assert r[..1] == "0" && r[..0] == [];
    }
  }

  /** `xs.join(sep)`. */
  function Join(xs: seq<string>, sep: string): string {
    if xs == [] then [] else if |xs| == 1 then xs[0] else xs[0] + sep + Join(xs[1..], sep)
  }
}
