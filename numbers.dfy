/** Decimal parsing as the client code does it with `parseFloat` and with the
    numeric regular expression of the relationship dialog. Values are exact
    reals, not IEEE doubles. */
module Numbers {
  import opened Wrappers
  import opened Text

  function Pow10(k: nat): (r: nat)
    ensures r >= 1
  {
    if k == 0 then 1 else 10 * Pow10(k - 1)
  }

  /** The longest prefix of `s` made of decimal digits. */
  function LeadingDigits(s: string): (r: string)
    ensures AllDigits(r) && IsPrefix(r, s)
    ensures |r| < |s| ==> !IsDigit(s[|r|])
  {
    if s != [] && IsDigit(s[0]) then [s[0]] + LeadingDigits(s[1..]) else []
  }

  lemma {:induction false} LeadingDigitsOfDigits(s: string)
    requires AllDigits(s)
    ensures LeadingDigits(s) == s
  {
    if s != [] {
      LeadingDigitsOfDigits(s[1..]);
    }
  }

  /** The value of `intPart.frac` written in decimal. */
  function DecimalValue(intPart: string, frac: string): real
    requires AllDigits(intPart) && AllDigits(frac)
  {
    DigitsValue(intPart) as real + DigitsValue(frac) as real / Pow10(|frac|) as real
  }

  /** The digits after the decimal point of the number that starts `rest`. */
  function FractionDigits(rest: string): string {
    if rest != [] && rest[0] == '.' then LeadingDigits(rest[1..]) else []
  }

  /** JavaScript's `parseFloat`: leading whitespace is skipped, then an optional
      sign, then the longest prefix of the form `digits[.digits]` or `.digits`
      is read; `None` stands for `NaN` (no digit at all). */
  function ParseFloat(s: string): Option<real> {
    var t := TrimStart(s);
    var neg := t != [] && t[0] == '-';
    var body := if t != [] && (t[0] == '-' || t[0] == '+') then t[1..] else t;
    var ip := LeadingDigits(body);
    var fp := FractionDigits(body[|ip|..]);
    if ip == [] && fp == [] then None
    else Some(if neg then -DecimalValue(ip, fp) else DecimalValue(ip, fp))
  }

  /** The unsigned part of `^-?(\d+\.?\d*|\.\d+)$`. */
  predicate UnsignedPattern(u: string) {
    var ip := LeadingDigits(u);
    var rest := u[|ip|..];
    if ip != [] then rest == [] || (rest[0] == '.' && AllDigits(rest[1..]))
    else |rest| >= 2 && rest[0] == '.' && AllDigits(rest[1..])
  }

  /** `t` without its leading '-', if any. */
  function Unsigned(t: string): string {
    if t != [] && t[0] == '-' then t[1..] else t
  }

  /** The regular expression `^-?(\d+\.?\d*|\.\d+)$`. */
  predicate NumberPattern(t: string) {
    UnsignedPattern(Unsigned(t))
  }

  /** The unsigned value of a string that matches the pattern. */
  function PatternValue(u: string): real
    requires UnsignedPattern(u)
  {
    var ip := LeadingDigits(u);
    var rest := u[|ip|..];
    if rest == [] then DigitsValue(ip) as real else DecimalValue(ip, rest[1..])
  }

  /** An unsigned match starts with a digit or '.', and `parseFloat`'s reading
      of it has a digit and the pattern's value. */
  lemma UnsignedParses(u: string)
    requires UnsignedPattern(u)
    ensures u != [] && (IsDigit(u[0]) || u[0] == '.')
    ensures var ip := LeadingDigits(u);
            var fp := FractionDigits(u[|ip|..]);
            (ip != [] || fp != []) && DecimalValue(ip, fp) == PatternValue(u)
  {
    var ip := LeadingDigits(u);
    var rest := u[|ip|..];
    if rest != [] {
      LeadingDigitsOfDigits(rest[1..]);
      assert FractionDigits(rest) == rest[1..];
    } else {
      assert FractionDigits(rest) == [];
      assert DecimalValue(ip, []) == DigitsValue(ip) as real;
    }
  }

  /** `parseFloat` on a string that starts with neither whitespace nor '+'. */
  lemma ParseFloatUnpadded(t: string)
    requires t != [] && !IsSpace(t[0]) && t[0] != '+'
    ensures var ip := LeadingDigits(Unsigned(t));
            var fp := FractionDigits(Unsigned(t)[|ip|..]);
            ParseFloat(t) == if ip == [] && fp == [] then None
                             else Some(if t[0] == '-' then -DecimalValue(ip, fp) else DecimalValue(ip, fp))
  {
    assert TrimStart(t) == t;
  }

  /** Once a string matches the numeric pattern, `parseFloat` cannot give
      `NaN`, and it reads exactly the value the pattern describes. */
  lemma PatternParses(t: string)
    requires NumberPattern(t)
    ensures t != [] && !IsSpace(t[0])
    ensures ParseFloat(t) == Some(if t[0] == '-' then -PatternValue(Unsigned(t)) else PatternValue(Unsigned(t)))
  {
    UnsignedParses(Unsigned(t));
    ParseFloatUnpadded(t);
  }

  /** A value read from the unsigned part of the pattern is never negative. */
  lemma PatternValueNonNegative(u: string)
    requires UnsignedPattern(u)
    ensures PatternValue(u) >= 0.0
  {
    var ip := LeadingDigits(u);
    if u[|ip|..] != [] {
      assert DecimalValue(ip, u[|ip|..][1..]) >= 0.0;
    }
  }
}
