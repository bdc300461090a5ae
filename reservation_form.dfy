/** The create-reservation form: the `dd/mm/yyyy` formatter applied as the
    date is typed, the form check run before submitting, and the request the
    submit step builds from a form that passes it. */
module ReservationForm {
  import opened Wrappers
  import opened Text
  import opened Seqs
  import opened Numbers

  /** A character `handleDateChange` keeps: a digit or '/'. */
  predicate DateChar(c: char) { IsDigit(c) || c == '/' }

  /** `charAt(i) === '/'`; `charAt` past the end is "", which is not '/'. */
  predicate SlashAt(s: string, i: nat) { i < |s| && s[i] == '/' }

  /** Puts a '/' at index `at` of a string at least that long that has none
      there. */
  function InsertSlash(s: string, at: nat): string {
    if |s| >= at && !SlashAt(s, at) then s[..at] + "/" + s[at..] else s
  }

  /** `handleDateChange`: drop everything but digits and '/', put a '/' at
      index 2 and then at index 5 where there is none (even at the very end),
      and keep at most 10 characters. */
  function FormatDate(value: string): string {
    Take(Slashed(value), 10)
  }

  /** The shape of a formatted date: digits and '/' only, at most 10
      characters, a '/' at index 2 once there are 3 characters and at index 5
      once there are 6, and never 2 or 5 characters long. */
  predicate DateShaped(r: string) {
    && |r| <= 10
    && (forall i :: 0 <= i < |r| ==> DateChar(r[i]))
    && (|r| >= 3 ==> r[2] == '/')
    && (|r| >= 6 ==> r[5] == '/')
    && |r| != 2 && |r| != 5
  }

  lemma FormatDateShaped(value: string)
    ensures DateShaped(FormatDate(value))
  {
    var first := InsertSlash(Filter(value, DateChar), 2);
    assert forall i :: 0 <= i < |first| ==> DateChar(first[i]);
    assert |first| >= 2 ==> first[2] == '/';
    var second := InsertSlash(first, 5);
    assert forall i :: 0 <= i < |second| ==> DateChar(second[i]);
    assert |second| >= 3 ==> second[2] == '/';
    assert |second| >= 5 ==> second[5] == '/';
    assert |second| != 2 && |second| != 5;
    var r := Take(second, 10);
    assert r == second[..|r|];
  }

  /** Formatting a formatted date changes nothing. */
  lemma FormatDateIdempotent(value: string)
    ensures FormatDate(FormatDate(value)) == FormatDate(value)
  {
    var r := FormatDate(value);
    FormatDateShaped(value);
    FilterAllOrNone(r, DateChar);
    assert Filter(r, DateChar) == r;
  }

  /** The digits of a string, in order. */
  function Digits(s: string): string {
    Filter(s, IsDigit)
  }

  /** The formatter only adds '/' and cuts the end: the digits it writes are
      the first digits of the input, and all of them when it writes fewer
      than 10 characters. */
  lemma FormatDateDigits(value: string)
    ensures IsPrefix(Digits(FormatDate(value)), Digits(value))
    ensures |FormatDate(value)| < 10 ==> Digits(FormatDate(value)) == Digits(value)
  {
    var second := Slashed(value);
    SlashedDigits(value);
    var r := Take(second, 10);
    assert second == r + second[|r|..];
    FilterConcat(r, second[|r|..], IsDigit);
  }

  /** The formatter's text before it is cut to 10 characters. */
  function Slashed(value: string): string {
    InsertSlash(InsertSlash(Filter(value, DateChar), 2), 5)
  }

  lemma SlashedDigits(value: string)
    ensures Digits(Slashed(value)) == Digits(value)
  {
    var kept := Filter(value, DateChar);
    KeptDigits(value);
    SlashAddsNoDigit(kept, 2);
    SlashAddsNoDigit(InsertSlash(kept, 2), 5);
  }

  /** Dropping what is neither a digit nor '/' keeps every digit. */
  lemma {:induction false} KeptDigits(value: string)
    ensures Digits(Filter(value, DateChar)) == Digits(value)
    decreases |value|
  {
    if value != [] {
      var init := value[..|value| - 1];
      var c := value[|value| - 1];
      assert value == init + [c];
      KeptDigits(init);
      FilterAppend(init, c, DateChar);
      FilterAppend(init, c, IsDigit);
      if DateChar(c) {
        assert Filter(value, DateChar) == Filter(init, DateChar) + [c];
        FilterAppend(Filter(init, DateChar), c, IsDigit);
      } else {
        assert Filter(value, DateChar) == Filter(init, DateChar);
        assert !IsDigit(c);
      }
    }
  }

  /** Inserting a '/' adds no digit. */
  lemma SlashAddsNoDigit(s: string, at: nat)
    ensures Digits(InsertSlash(s, at)) == Digits(s)
  {
    if |s| >= at && !SlashAt(s, at) {
      var head, tail := s[..at], s[at..];
      assert s == head + tail;
      assert head + "/" == head + ['/'];
      assert InsertSlash(s, at) == (head + "/") + tail;
      FilterAppend(head, '/', IsDigit);
      FilterConcat(head, tail, IsDigit);
      FilterConcat(head + "/", tail, IsDigit);
    }
  }

  /** `^(\d{2})\/(\d{2})\/(\d{4})$`. */
  predicate MatchesDate(s: string) {
    |s| == 10 && s[2] == '/' && s[5] == '/' &&
    AllDigits(s[..2]) && AllDigits(s[3..5]) && AllDigits(s[6..])
  }

  /** A day, month and year as written. */
  datatype CalendarDate = CalendarDate(day: nat, month: nat, year: nat)

  /** The three numbers of a matching date. */
  function DateParts(s: string): CalendarDate
    requires MatchesDate(s)
  {
    CalendarDate(DigitsValue(s[..2]), DigitsValue(s[3..5]), DigitsValue(s[6..]))
  }

  predicate IsLeapYear(y: int) {
    (y % 4 == 0 && y % 100 != 0) || y % 400 == 0
  }

  function DaysInMonth(year: int, month: nat): nat
    requires 1 <= month <= 12
  {
    if month == 2 then (if IsLeapYear(year) then 29 else 28)
    else if month == 4 || month == 6 || month == 9 || month == 11 then 30
    else 31
  }

  /** `new Date(year, month - 1, day)` reads back as the same day, month and
      year exactly when that day exists and the year is not one of 0..99,
      which `Date` takes as 1900..1999. */
  predicate DateSurvives(d: CalendarDate) {
    d.year >= 100 && 1 <= d.month <= 12 && 1 <= d.day <= DaysInMonth(d.year, d.month)
  }

  const DateFormatError := "Date must be in format dd/mm/yyyy"
  const DateValueError := "Please enter a valid date"

  /** The date part of `validateForm`: no date is fine; otherwise it must
      match `dd/mm/yyyy` and name a day that exists. */
  function DateError(s: string): (r: string)
    ensures r == "" <==> s == "" || (MatchesDate(s) && DateSurvives(DateParts(s)))
  {
    if s == "" then ""
    else if !MatchesDate(s) then DateFormatError
    else if !DateSurvives(DateParts(s)) then DateValueError
    else ""
  }

  /** No date of year 0..99 gets through, whatever its day and month. */
  lemma EarlyYearsRefused(s: string)
    requires MatchesDate(s) && DigitsValue(s[6..]) < 100
    ensures DateError(s) == DateValueError
  {
  }

  /** 29/02 is accepted exactly in leap years. */
  lemma LeapDay(year: nat)
    requires year >= 100
    ensures DateSurvives(CalendarDate(29, 2, year)) <==> IsLeapYear(year)
  {
  }

  /** The form's fields. */
  datatype Form = Form(title: string, selectedComponent: string, quantityInput: string, priority: int, neededByDate: string)

  /** The error shown under each field; "" is none. */
  datatype Errors = Errors(title: string, componentName: string, quantity: string, neededByDate: string)

  const NoErrors := Errors("", "", "", "")

  const TitleRequired := "Title is required"
  const ComponentRequired := "Please select a component"
  const QuantityRequired := "Quantity is required"
  const QuantityInvalid := "Quantity must be a valid positive number"

  /** A title that is not all whitespace. */
  function TitleError(title: string): (r: string)
    ensures r == "" <==> Trim(title) != ""
  {
    if Trim(title) == "" then TitleRequired else ""
  }

  /** A component must be chosen. */
  function ComponentError(selectedComponent: string): (r: string)
    ensures r == "" <==> selectedComponent != ""
  {
    if selectedComponent == "" then ComponentRequired else ""
  }

  /** A quantity that is a positive number. */
  predicate QuantityOk(input: string) {
    Trim(input) != "" && ParseFloat(input).Some? && ParseFloat(input).value > 0.0
  }

  /** A blank quantity is missing; otherwise `parseFloat` must read a
      positive number from its start. */
  function QuantityError(input: string): (r: string)
    ensures r == "" <==> QuantityOk(input)
    ensures r == QuantityRequired <==> Trim(input) == ""
  {
    var quantityValue := ParseFloat(input);
    if Trim(input) == "" then QuantityRequired
    else if quantityValue.None? || quantityValue.value <= 0.0 then QuantityInvalid
    else ""
  }

  /** On a quantity written as a plain number, the check accepts exactly
      the positive ones. */
  lemma QuantityOfPattern(t: string)
    requires NumberPattern(t)
    ensures QuantityOk(t) <==> t[0] != '-' && PatternValue(Unsigned(t)) > 0.0
  {
    PatternParses(t);
    UnpaddedNotBlank(t);
    PatternValueNonNegative(Unsigned(t));
  }

  /** A string that does not start with whitespace is not blank. */
  lemma UnpaddedNotBlank(t: string)
    requires t != [] && !IsSpace(t[0])
    ensures Trim(t) != ""
  {
    assert TrimStart(t) == t;
  }

  /** Every check of `validateForm` passes. */
  predicate FormValid(f: Form) {
    Trim(f.title) != "" && f.selectedComponent != "" && QuantityOk(f.quantityInput) &&
    (f.neededByDate == "" || (MatchesDate(f.neededByDate) && DateSurvives(DateParts(f.neededByDate))))
  }

  /** What `validateForm` leaves: the flag it returns and the errors it
      shows. */
  datatype Validation = Validation(isValid: bool, errors: Errors)

  /** `validateForm`: every check runs and sets its own field's message, and
      the form is valid exactly when no message is set. */
  function ValidateForm(f: Form): (r: Validation)
    ensures r.isValid <==> FormValid(f)
    ensures r.isValid <==> r.errors == NoErrors
    ensures r.errors.title != "" <==> Trim(f.title) == ""
    ensures r.errors.componentName != "" <==> f.selectedComponent == ""
    ensures r.errors.quantity != "" <==> !QuantityOk(f.quantityInput)
    ensures r.errors.neededByDate != "" <==> f.neededByDate != "" && !(MatchesDate(f.neededByDate) && DateSurvives(DateParts(f.neededByDate)))
  {
    var errors := Errors(TitleError(f.title), ComponentError(f.selectedComponent),
                         QuantityError(f.quantityInput), DateError(f.neededByDate));
    Validation(errors == NoErrors, errors)
  }

  /** What `handleSubmit` sends to `createReservation`. The date is the
      calendar day; its conversion to an ISO timestamp in the browser's time
      zone is not modelled. */
  datatype Request = Request(title: string, componentName: string, quantity: real, priority: int, neededByDate: Option<CalendarDate>)

  /** `handleSubmit`: nothing is sent unless the form passes; otherwise the
      quantity is `parseFloat` of the input and the date, when given, is
      split at '/' into day, month and year. */
  function HandleSubmit(f: Form): (r: Option<Request>)
    ensures r.None? <==> !FormValid(f)
    ensures r.Some? ==> r.value.quantity > 0.0 && r.value.quantity == ParseFloat(f.quantityInput).value
    ensures r.Some? ==> r.value.title == f.title && r.value.componentName == f.selectedComponent && r.value.priority == f.priority
    ensures r.Some? ==> (r.value.neededByDate.Some? <==> f.neededByDate != "")
    ensures r.Some? && r.value.neededByDate.Some? ==> DateSurvives(r.value.neededByDate.value)
  {
    if !ValidateForm(f).isValid then None
    else
      var date := if f.neededByDate == "" then None else Some(DateParts(f.neededByDate));
      Some(Request(f.title, f.selectedComponent, ParseFloat(f.quantityInput).value, f.priority, date))
  }

  /** Eight digits typed into the date field, with nothing else kept, come
      out in the `dd/mm/yyyy` shape the form's date check asks for. */
  lemma FormattedDateMatches(value: string)
    requires var kept := Filter(value, DateChar); |kept| == 8 && AllDigits(kept)
    ensures MatchesDate(FormatDate(value))
  {
    var kept := Filter(value, DateChar);
    var first := InsertSlash(kept, 2);
    assert first == kept[..2] + "/" + kept[2..];
    assert |first| == 9 && first[5] == kept[4];
    var second := InsertSlash(first, 5);
    assert second == first[..5] + "/" + first[5..];
    var r := FormatDate(value);
    assert r == second;
    assert r[..2] == kept[..2] && r[3..5] == kept[2..4] && r[6..] == kept[4..];
  }
}
