/** The production-time field: hours held as a number, shown and typed as
    `HH:MM`. Hours are exact reals here; `Math.floor` is `Floor` and
    `Math.round(x)` is `Floor(x + 0.5)`, which rounds halves up as JavaScript
    does. */
module TimeInput {
  import opened Text

  /** What `timeStringToHours` gives: a number of hours, or the message of the
      error it throws. */
  datatype Parsed = Hours(value: real) | Invalid(message: string)

  const FormatError := "Invalid time format. Use HH:MM"
  const MinutesError := "Minutes must be less than 60"

  /** `Math.round`. */
  function Round(x: real): int {
    (x + 0.5).Floor
  }

  /** Hours and minutes, each padded to two digits, around a ':'. */
  function Format(h: int, m: int): string {
    PadStart2(IntToString(h)) + ":" + PadStart2(IntToString(m))
  }

  lemma FormatZero()
    ensures Format(0, 0) == "00:00"
  {
    assert NatToString(0) == "0";
  }

  /** `hoursToTimeString`: 0 is "00:00"; otherwise the whole hours and the
      rounded minutes, each padded to two digits. The minutes are not carried
      into the hour when they round up to 60. */
  function HoursToTimeString(hours: real): string {
    if hours == 0.0 then "00:00"
    else
      var wholeHours := hours.Floor;
      var minutes := Round((hours - wholeHours as real) * 60.0);
      Format(wholeHours, minutes)
  }

  /** `^(\d{1,2}):(\d{2})$`. */
  predicate MatchesTime(s: string) {
    (|s| == 4 || |s| == 5) && s[|s| - 3] == ':' && AllDigits(s[..|s| - 3]) && AllDigits(s[|s| - 2..])
  }

  /** `timeStringToHours`: the empty string is 0; anything else must match
      `HH:MM` with one or two hour digits, and minutes of 60 or more are
      refused. */
  function TimeStringToHours(s: string): (r: Parsed)
    ensures s == "" ==> r == Hours(0.0)
    ensures r == Invalid(FormatError) <==> s != "" && !MatchesTime(s)
    ensures r == Invalid(MinutesError) <==> s != "" && MatchesTime(s) && DigitsValue(s[|s| - 2..]) >= 60
    ensures r.Hours? ==> 0.0 <= r.value < 100.0
  {
    if s == "" then Hours(0.0)
    else if !MatchesTime(s) then Invalid(FormatError)
    else
      var hours := DigitsValue(s[..|s| - 3]);
      var minutes := DigitsValue(s[|s| - 2..]);
      DigitsBelow(s[..|s| - 3]);
      if minutes >= 60 then Invalid(MinutesError) else Hours(hours as real + minutes as real / 60.0)
  }

  /** One or two digits are worth less than 100. */
  lemma DigitsBelow(s: string)
    requires AllDigits(s) && |s| <= 2
    ensures DigitsValue(s) < 100
  {
    if |s| == 2 {
      assert s[..1][..0] == [];
    } else if |s| == 1 {
      assert s[..0] == [];
    }
  }

  /** The parts of `hs + ":" + ms` around the ':' when the minutes take two
      characters. */
  lemma AroundColon(hs: string, ms: string)
    requires |ms| == 2
    ensures var s := hs + ":" + ms;
      |s| == |hs| + 3 && s[..|s| - 3] == hs && s[|s| - 3] == ':' && s[|s| - 2..] == ms
  {
  }

  /** A number padded to two digits: digits, at least two of them, exactly two
      below 100, and worth the number. */
  lemma Padded(n: nat)
    ensures var p := PadStart2(NatToString(n));
      AllDigits(p) && |p| >= 2 && (n < 100 ==> |p| == 2) && DigitsValue(p) == n
  {
    PaddedDigitsValue(NatToString(n));
    NatToStringValue(n);
  }

  /** `h` and `m` written as the formatter writes them: two-digit fields
      around a ':', which the parser reads back as `h + m/60`. */
  lemma TwoFields(h: nat, m: nat, s: string)
    requires h < 100 && m < 60
    requires s == Format(h, m)
    ensures |s| == 5 && MatchesTime(s)
    ensures TimeStringToHours(s) == Hours(h as real + m as real / 60.0)
  {
    Padded(h);
    Padded(m);
    AroundColon(PadStart2(NatToString(h)), PadStart2(NatToString(m)));
  }

  /** Whole hours and minutes read back exactly: for h in [0, 99] and m in
      [0, 59], parsing the formatted `h + m/60` gives `h + m/60`. */
  lemma RoundTrip(h: nat, m: nat)
    requires h <= 99 && m <= 59
    ensures TimeStringToHours(HoursToTimeString(h as real + m as real / 60.0)) == Hours(h as real + m as real / 60.0)
  {
    var hours := h as real + m as real / 60.0;
    if hours != 0.0 {
      FormatOfExact(h, m);
      TwoFields(h, m, HoursToTimeString(hours));
    } else {
      assert h == 0 && m == 0;
      FormatZero();
      TwoFields(0, 0, Format(0, 0));
    }
  }

  /** A whole number of minutes is formatted as its hours and minutes. */
  lemma FormatOfExact(h: nat, m: nat)
    requires m <= 59 && h as real + m as real / 60.0 != 0.0
    ensures HoursToTimeString(h as real + m as real / 60.0) == Format(h, m)
  {
    SplitExact(h, m);
  }

  /** `h + m/60` splits back into `h` whole hours and `m` rounded minutes. */
  lemma SplitExact(h: nat, m: nat)
    requires m <= 59
    ensures (h as real + m as real / 60.0).Floor == h
    ensures Round((h as real + m as real / 60.0 - h as real) * 60.0) == m
  {
    var x := h as real + m as real / 60.0;
    assert h as real <= x < h as real + 1.0;
    assert (x - h as real) * 60.0 == m as real;
    assert (m as real + 0.5).Floor == m;
  }

  /** The formatter can write minutes of 60: 239/120 hours (1 h 59.5 min)
      becomes "01:60", which the parser refuses. */
  lemma MinutesOverflow()
    ensures HoursToTimeString(239.0 / 120.0) == "01:60"
    ensures TimeStringToHours("01:60") == Invalid(MinutesError)
  {
    var hours := 239.0 / 120.0;
    assert hours.Floor == 1;
    assert Round((hours - 1.0) * 60.0) == 60;
    assert NatToString(60) == "60" by {
      assert NatToString(6) == "6";
    }
    assert NatToString(1) == "1";
    assert DigitsValue("60") == 60 by {
      assert "60"[..1] == "6" && "6"[..0] == [];
    }
  }

  /** The formatter can write three hour digits: 100 hours becomes "100:00",
      which the parser refuses. */
  lemma HundredHours()
    ensures HoursToTimeString(100.0) == "100:00"
    ensures TimeStringToHours("100:00") == Invalid(FormatError)
  {
    FormatHundred();
    assert (100.0).Floor == 100 && Round(0.0) == 0;
    assert !MatchesTime("100:00");
  }

  lemma FormatHundred()
    ensures Format(100, 0) == "100:00"
  {
    assert NatToString(10) == "10" by {
      assert NatToString(1) == "1";
    }
    assert NatToString(100) == "100";
    assert NatToString(0) == "0";
  }

  /** The formatter with a minute count of 60 carried into the hour. */
  function HoursToTimeStringCarried(hours: real): string {
    if hours == 0.0 then "00:00"
    else
      var wholeHours := hours.Floor;
      var minutes := Round((hours - wholeHours as real) * 60.0);
      var carry := if minutes == 60 then 1 else 0;
      Format(wholeHours + carry, minutes - 60 * carry)
  }

  /** `^(\d+):(\d{2})$`: any number of hour digits. */
  predicate MatchesLongTime(s: string) {
    |s| >= 4 && s[|s| - 3] == ':' && AllDigits(s[..|s| - 3]) && AllDigits(s[|s| - 2..])
  }

  /** The parser with any number of hour digits. */
  function TimeStringToHoursAnyHours(s: string): (r: Parsed)
    ensures s == "" ==> r == Hours(0.0)
    ensures r == Invalid(FormatError) <==> s != "" && !MatchesLongTime(s)
    ensures r.Hours? ==> r.value >= 0.0
  {
    if s == "" then Hours(0.0)
    else if !MatchesLongTime(s) then Invalid(FormatError)
    else
      var hours := DigitsValue(s[..|s| - 3]);
      var minutes := DigitsValue(s[|s| - 2..]);
      if minutes >= 60 then Invalid(MinutesError) else Hours(hours as real + minutes as real / 60.0)
  }

  /** `h` and `m` written with at least two hour digits and two minute
      digits around a ':', which the wider parser reads back as `h + m/60`. */
  lemma LongFields(h: nat, m: nat, s: string)
    requires m < 60
    requires s == Format(h, m)
    ensures MatchesLongTime(s)
    ensures TimeStringToHoursAnyHours(s) == Hours(h as real + m as real / 60.0)
  {
    var hs, ms := PadStart2(NatToString(h)), PadStart2(NatToString(m));
    Padded(h);
    Padded(m);
    AroundColon(hs, ms);
    assert s == hs + ":" + ms;
    assert MatchesLongTime(s);
    assert DigitsValue(s[..|s| - 3]) == h && DigitsValue(s[|s| - 2..]) == m;
  }

  /** Rounding a fraction of an hour gives 0 to 60 minutes, within half a
      minute of it. */
  lemma RoundBounds(f: real)
    requires 0.0 <= f < 1.0
    ensures 0 <= Round(f * 60.0) <= 60
    ensures -0.5 <= Round(f * 60.0) as real - f * 60.0 <= 0.5
  {
  }

  /** With the carry and the wider parser, every non-negative number of hours
      is read back to within half a minute. */
  lemma CarriedRoundTrip(hours: real)
    requires hours >= 0.0
    ensures TimeStringToHoursAnyHours(HoursToTimeStringCarried(hours)).Hours?
    ensures var v := TimeStringToHoursAnyHours(HoursToTimeStringCarried(hours)).value;
      -1.0 / 120.0 <= v - hours <= 1.0 / 120.0
  {
    if hours != 0.0 {
      var h, m := CarriedParts(hours);
      LongFields(h, m, HoursToTimeStringCarried(hours));
    } else {
      FormatZero();
      LongFields(0, 0, Format(0, 0));
    }
  }

  /** The carried formatter writes hours and minutes within half a minute of
      its input, with fewer than 60 minutes. */
  lemma CarriedParts(hours: real) returns (h: nat, m: nat)
    requires hours > 0.0
    ensures m < 60 && HoursToTimeStringCarried(hours) == Format(h, m)
    ensures -1.0 / 120.0 <= h as real + m as real / 60.0 - hours <= 1.0 / 120.0
  {
    var w := hours.Floor;
    var f := hours - w as real;
    var minutes := Round(f * 60.0);
    RoundBounds(f);
    var carry := if minutes == 60 then 1 else 0;
    h, m := w + carry, minutes - 60 * carry;
    assert h as real + m as real / 60.0 - hours == minutes as real / 60.0 - f;
  }
}
