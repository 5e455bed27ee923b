/** The yup validation schema of the schedule forms: `startTime` must be present and match the
    time pattern; `endTime` must be present, match the pattern and pass the `is-greater` test
    against `startTime`. The result is the set of failed rules of each field. */
module ScheduleValidation {
  import opened Wrappers
  import opened JsValues
  import opened TimeFormat

  /** A form field: `null` (the initial value) or the text typed in. */
  datatype Value = Null | Str(text: string)

  /** JavaScript falsiness for such a value: `null` or the empty string. */
  predicate Falsy(v: Value)
  {
    v.Null? || v.text == ""
  }

  /** The values the form validates; yup ignores `restaurantId`, which has no rule. */
  datatype FormValues = FormValues(startTime: Value, endTime: Value, restaurantId: Option<int>)

  datatype Rule = Required | Format | Ordering

  datatype FieldErrors = FieldErrors(startTime: set<Rule>, endTime: set<Rule>)

  /** `.required(...)`: null and the empty string fail. */
  predicate RequiredHolds(v: Value)
  {
    !Falsy(v)
  }

  /** `.matches(timeRegex, ...)`: an absent value is not tested. The form library hands an empty
      string to yup as `undefined`, so it counts as absent here too. */
  predicate FormatHolds(v: Value)
    ensures FormatHolds(v) <==> Falsy(v) || (ClockShape(v.text) && InRange(v.text))
  {
    Falsy(v) || WellFormed(v.text)
  }

  /** The `is-greater` test on `endTime`: vacuous when either value is falsy, and otherwise
      `toSeconds(endTime) > toSeconds(startTime)`, whether or not the values matched the pattern. */
  predicate IsGreaterHolds(startTime: Value, endTime: Value)
    ensures !Falsy(startTime) && !Falsy(endTime) && ClockShape(startTime.text) && ClockShape(endTime.text) ==>
      (IsGreaterHolds(startTime, endTime) <==> ElapsedSeconds(endTime.text) > ElapsedSeconds(startTime.text))
    ensures !Falsy(startTime) && !Falsy(endTime) && ':' !in endTime.text ==> !IsGreaterHolds(startTime, endTime)
  {
    Falsy(startTime) || Falsy(endTime) || Greater(ToSeconds(endTime.text), ToSeconds(startTime.text))
  }

  function Failed(holds: bool, rule: Rule): set<Rule>
  {
    if holds then {} else {rule}
  }

  /** The failed rules of each field (yup with `abortEarly: false` runs every test). */
  function Validate(values: FormValues): (r: FieldErrors)
    ensures Ordering !in r.startTime
    ensures Required in r.startTime <==> Falsy(values.startTime)
    ensures Required in r.endTime <==> Falsy(values.endTime)
  {
    var start, end := values.startTime, values.endTime;
    FieldErrors(
      Failed(FormatHolds(start), Format) + Failed(RequiredHolds(start), Required),
      Failed(FormatHolds(end), Format) + Failed(RequiredHolds(end), Required)
        + Failed(IsGreaterHolds(start, end), Ordering))
  }

  predicate Passes(e: FieldErrors)
  {
    e.startTime == {} && e.endTime == {}
  }

  /** The message each test of the schema carries. */
  datatype Messages = Messages(
    startFormat: string, startRequired: string,
    endFormat: string, endRequired: string, endOrdering: string)

  datatype FieldMessages = FieldMessages(startTime: set<string>, endTime: set<string>)

  function MessageIf(rule: Rule, rules: set<Rule>, message: string): set<string>
  {
    if rule in rules then {message} else {}
  }

  /** The messages of the failed tests, per field. */
  function Describe(m: Messages, e: FieldErrors): FieldMessages
  {
    FieldMessages(
      MessageIf(Format, e.startTime, m.startFormat) + MessageIf(Required, e.startTime, m.startRequired),
      MessageIf(Format, e.endTime, m.endFormat) + MessageIf(Required, e.endTime, m.endRequired)
        + MessageIf(Ordering, e.endTime, m.endOrdering))
  }

  /** Two well-formed times in strictly increasing order. */
  predicate OrderedTimes(startTime: Value, endTime: Value)
  {
    startTime.Str? && endTime.Str? && WellFormed(startTime.text) && WellFormed(endTime.text) &&
    ElapsedSeconds(endTime.text) > ElapsedSeconds(startTime.text)
  }

  /** The form passes exactly when both times are well formed and the end is strictly later in
      the same day than the start. */
  lemma PassesIff(values: FormValues)
    ensures Passes(Validate(values)) <==> OrderedTimes(values.startTime, values.endTime)
  {
  }

  /** A field's errors are Format exactly when it holds a non-empty string outside the pattern. */
  lemma FormatIff(values: FormValues)
    ensures Format in Validate(values).startTime <==>
      values.startTime.Str? && values.startTime.text != "" && !WellFormed(values.startTime.text)
    ensures Format in Validate(values).endTime <==>
      values.endTime.Str? && values.endTime.text != "" && !WellFormed(values.endTime.text)
  {
  }

  /** With two well-formed times only the ordering can fail, and it fails exactly when the end
      is not strictly later: equal times fail and an earlier end is never read as the next day. */
  lemma {:induction false} WellFormedOrdering(values: FormValues)
    requires values.startTime.Str? && WellFormed(values.startTime.text)
    requires values.endTime.Str? && WellFormed(values.endTime.text)
    ensures Validate(values).startTime == {}
    ensures Validate(values).endTime ==
      if ElapsedSeconds(values.endTime.text) > ElapsedSeconds(values.startTime.text) then {} else {Ordering}
  {
  }

  /** A falsy start or end makes the ordering test pass; the absent field reports only Required. */
  lemma AbsentSkipsOrdering(values: FormValues)
    requires Falsy(values.startTime) || Falsy(values.endTime)
    ensures Ordering !in Validate(values).endTime
    ensures Falsy(values.startTime) ==> Validate(values).startTime == {Required}
    ensures Falsy(values.endTime) ==> Validate(values).endTime == {Required}
  {
  }

  /** The errors of `startTime` depend on `startTime` alone. */
  lemma StartErrorsIgnoreEnd(values: FormValues, other: FormValues)
    requires values.startTime == other.startTime
    ensures Validate(values).startTime == Validate(other).startTime
  {
  }

  /** The ordering test reads any `DD:DD:DD` text as seconds, in range or not. */
  lemma {:induction false} OrderingOnClockShapes(values: FormValues)
    requires values.startTime.Str? && ClockShape(values.startTime.text)
    requires values.endTime.Str? && ClockShape(values.endTime.text)
    ensures Ordering in Validate(values).endTime <==>
      ElapsedSeconds(values.endTime.text) <= ElapsedSeconds(values.startTime.text)
  {
  }

  /** A text with fewer than three ':'-separated pieces gives NaN, so the ordering test fails. */
  lemma MissingPieceFailsOrdering(values: FormValues)
    requires !Falsy(values.startTime) && !Falsy(values.endTime)
    requires ':' !in values.endTime.text
    ensures Ordering in Validate(values).endTime
  {
  }

  /** The full result for two `DD:DD:DD` texts: Format on a field out of range, and Ordering on
      `endTime` when its seconds do not exceed those of `startTime`, computed even when a field
      is out of range. */
  lemma {:induction false} ClockShapeErrors(values: FormValues)
    requires values.startTime.Str? && ClockShape(values.startTime.text)
    requires values.endTime.Str? && ClockShape(values.endTime.text)
    ensures Validate(values) == FieldErrors(
      Failed(InRange(values.startTime.text), Format),
      Failed(InRange(values.endTime.text), Format)
        + Failed(ElapsedSeconds(values.endTime.text) > ElapsedSeconds(values.startTime.text), Ordering))
  {
    OrderingOnClockShapes(values);
  }

  /** 08:00:00 to 17:00:00 passes. */
  lemma OrderedExample(values: FormValues)
    requires values.startTime == Str("08:00:00") && values.endTime == Str("17:00:00")
    ensures Passes(Validate(values))
  {
    var a, b := values.startTime.text, values.endTime.text;
    assert ClockShape(a) && ClockShape(b);
    assert ElapsedSeconds(a) == 28800 && ElapsedSeconds(b) == 61200;
    ClockShapeErrors(values);
  }

  /** 17:00:00 to 08:00:00 fails the ordering on `endTime` only. */
  lemma ReversedExample(values: FormValues)
    requires values.startTime == Str("17:00:00") && values.endTime == Str("08:00:00")
    ensures Validate(values) == FieldErrors({}, {Ordering})
  {
    var a, b := values.startTime.text, values.endTime.text;
    assert ClockShape(a) && ClockShape(b);
    assert ElapsedSeconds(a) == 61200 && ElapsedSeconds(b) == 28800;
    ClockShapeErrors(values);
  }

  /** Equal times fail the ordering. */
  lemma EqualExample(values: FormValues)
    requires values.startTime == Str("09:00:00") && values.endTime == Str("09:00:00")
    ensures Validate(values) == FieldErrors({}, {Ordering})
  {
    var a, b := values.startTime.text, values.endTime.text;
    assert ClockShape(a) && ClockShape(b);
    assert ElapsedSeconds(a) == 32400 && ElapsedSeconds(b) == 32400;
    ClockShapeErrors(values);
  }

  /** A start of 25:00:00 fails the format, and as 90000 > 36000 the ordering fails as well. */
  lemma OutOfRangeStartExample(values: FormValues)
    requires values.startTime == Str("25:00:00") && values.endTime == Str("10:00:00")
    ensures Validate(values) == FieldErrors({Format}, {Ordering})
  {
    var a, b := values.startTime.text, values.endTime.text;
    assert ClockShape(a) && ClockShape(b);
    assert ElapsedSeconds(a) == 90000 && ElapsedSeconds(b) == 36000;
    ClockShapeErrors(values);
  }

  /** An empty start reports Required on `startTime` and nothing on a valid `endTime`. */
  lemma EmptyStartExample(values: FormValues)
    requires values.startTime == Str("") && values.endTime == Str("10:00:00")
    ensures Validate(values) == FieldErrors({Required}, {})
  {
  }
}
