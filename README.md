# Schedule time-range validation of the DeliverUS owner app

This project models the schedule forms of the DeliverUS restaurant-owner front end: the yup
validation schema that both the create-schedule and the edit-schedule screen declare for a
schedule's `startTime` and `endTime`, and the lookup by which the edit screen loads the schedule
being edited into its form.

- `Regex` — the fragment of JavaScript regular expressions the schema uses (character ranges,
  concatenation, alternation) matched against a whole string, as `^...$` without the multiline
  flag does; matching is a backtracking search over cut points.
- `JsValues` — the JavaScript built-ins behind the `toSeconds` helper: `split(':')` (with its
  `join` round trip), `Number` on a piece, destructuring of missing pieces as `undefined`,
  NaN-propagating arithmetic and a `>` that is false on NaN.
- `TimeFormat` — the pattern `^([01]\d|2[0-3]):([0-5]\d):([0-5]\d)$` as a `Regex.Re` value, proved
  to accept exactly the `DD:DD:DD` strings with hour 00–23 and minute and second 00–59; the
  `toSeconds` helper, proved to give `h*3600 + m*60 + s` on every `DD:DD:DD` string (in range or
  not) and a value in 0..86399 on a well-formed one; elapsed seconds order well-formed times as
  (hour, minute, second) do, with no wrap-around past midnight.
- `ScheduleValidation` — field values (`null` or a string), the three rules (Required, Format,
  Ordering), `Validate` returning the failed rules of each field, and the messages of a schema.
  The form passes exactly when both times are well formed and the end is strictly later.
- `CreateScheduleScreen` — the create form's messages and initial values.
- `EditScheduleScreen` — the edit form's messages (the same schema), `FindById` (the first schedule
  with the route's id) and a class holding the screen's `schedule` and `initialValues` state,
  whose `FetchSchedule` method leaves both unchanged on failure.

Behaviour that the code has and a casual reading might not expect, modelled as the code has it:

- The `is-greater` test skips only when a value is falsy (`null` or `""`). It also runs on badly
  formatted values, so start `"25:00:00"` with end `"10:00:00"` yields a Format error on
  `startTime` and an Ordering error on `endTime` (90000 > 36000).
- The empty string counts as an absent value: the form library hands `''` to yup as `undefined`,
  so an empty field reports only Required, and `matches` (which skips absent values) does not
  report.
- The edit screen's first initial values put the route's `id` (the schedule's id) under
  `restaurantId` (EditScheduleScreen.js:22); after a successful lookup the `restaurantId` key is
  gone. Both are modelled as written.

## Model

| member | source | states |
|---|---|---|
| `Regex.CatMatch` | DeliverUS-Frontend-Owner/src/screens/restaurants/CreateScheduleScreen.js:22 | a concatenation whose left part has a fixed width matches a whole string exactly when the left part matches the prefix of that width and the right part matches the rest |
| `Regex.MatchHasWidth` | DeliverUS-Frontend-Owner/src/screens/restaurants/CreateScheduleScreen.js:22 | every string a fixed-width pattern matches has the pattern's width, so the anchored pattern admits no longer or shorter string |
| `JsValues.Split` | DeliverUS-Frontend-Owner/src/screens/restaurants/CreateScheduleScreen.js:40 | `split(':')` gives at least one piece, no piece contains the separator, and joining the pieces with the separator gives back the input |
| `JsValues.SplitJoin` | DeliverUS-Frontend-Owner/src/screens/restaurants/CreateScheduleScreen.js:40 | splitting undoes joining separator-free pieces |
| `JsValues.TwoDigitNumber` | DeliverUS-Frontend-Owner/src/screens/restaurants/CreateScheduleScreen.js:40 | `Number` of a two-digit piece such as "08" is ten times its first digit plus its second |
| `JsValues.LeadingZero` | DeliverUS-Frontend-Owner/src/screens/restaurants/CreateScheduleScreen.js:40 | a leading zero does not change what `Number` gives for a digit string, so "08" and "8" are the same number |
| `JsValues.Greater` | DeliverUS-Frontend-Owner/src/screens/restaurants/CreateScheduleScreen.js:43 | `>` never holds between a number and itself, NaN included |
| `JsValues.GreaterStrictOrder` | DeliverUS-Frontend-Owner/src/screens/restaurants/CreateScheduleScreen.js:43 | `>` is irreflexive, asymmetric and transitive, also when NaN is involved |
| `TimeFormat.TimeRegexMatch` | DeliverUS-Frontend-Owner/src/screens/restaurants/CreateScheduleScreen.js:22 | the time pattern, as a regular expression matched against the whole string, matches a string exactly when it is 8 characters `DD:DD:DD` of ASCII digits with hour at most 23 and minute and second at most 59 |
| `TimeFormat.WellFormed` | DeliverUS-Frontend-Owner/src/screens/restaurants/CreateScheduleScreen.js:27-31 | the `matches(timeRegex)` rule accepts exactly the `DD:DD:DD` strings with hour 00-23 and minute and second 00-59 |
| `TimeFormat.RejectedExamples` | DeliverUS-Frontend-Owner/src/screens/restaurants/CreateScheduleScreen.js:27-31 | "8:00:00", "24:00:00" and "12:60:00" fail the format rule |
| `TimeFormat.LastSecondExample` | DeliverUS-Frontend-Owner/src/screens/restaurants/CreateScheduleScreen.js:22 | "23:59:59" is well formed and is second 86399 |
| `TimeFormat.ToSeconds` | DeliverUS-Frontend-Owner/src/screens/restaurants/CreateScheduleScreen.js:39-42 | `toSeconds` is a number exactly when the text has at least three ':'-separated pieces and the first three are digit strings (NaN otherwise); on every `DD:DD:DD` string, in range or not, it is hours*3600 + minutes*60 + seconds; it is built from `Number` (`ToNumber`), destructuring (`Element`, NaN past the end) and NaN-propagating `*` and `+` (`Times`, `Plus`), which this contract covers |
| `TimeFormat.ClockShapeSplits` | DeliverUS-Frontend-Owner/src/screens/restaurants/CreateScheduleScreen.js:40 | a `DD:DD:DD` string splits on ':' into exactly its three two-digit fields |
| `TimeFormat.WellFormedWithinDay` | DeliverUS-Frontend-Owner/src/screens/restaurants/CreateScheduleScreen.js:39-42 | on a well-formed time `toSeconds` is its elapsed seconds, which are at most 86399 |
| `TimeFormat.OutOfRangeExample` | DeliverUS-Frontend-Owner/src/screens/restaurants/CreateScheduleScreen.js:39-42 | `toSeconds("25:00:00")` is 90000: the helper does not check ranges |
| `TimeFormat.MixedRadix` | DeliverUS-Frontend-Owner/src/screens/restaurants/CreateScheduleScreen.js:41 | with minutes and seconds below 60, h*3600+m*60+s is equal or smaller exactly when (h, m, s) is equal or lexicographically smaller |
| `TimeFormat.ClockFieldsInjective` | DeliverUS-Frontend-Owner/src/screens/restaurants/CreateScheduleScreen.js:39-43 | two `DD:DD:DD` strings with in-range minutes and seconds have the same seconds only if they are the same string |
| `TimeFormat.ElapsedSecondsInjective` | DeliverUS-Frontend-Owner/src/screens/restaurants/CreateScheduleScreen.js:43 | two well-formed times compare equal exactly when they are the same string |
| `TimeFormat.ElapsedSecondsOrder` | DeliverUS-Frontend-Owner/src/screens/restaurants/CreateScheduleScreen.js:43 | on well-formed times, fewer seconds means earlier (hour, minute, second) in the same day; no next-day reading |
| `ScheduleValidation.Validate` | DeliverUS-Frontend-Owner/src/screens/restaurants/CreateScheduleScreen.js:24-45 | Ordering is never reported on `startTime`; each field reports Required exactly when that field is null or empty, independent of the other field (`.required`, `RequiredHolds`, fails exactly on null and the empty string) |
| `ScheduleValidation.FormatHolds` | DeliverUS-Frontend-Owner/src/screens/restaurants/CreateScheduleScreen.js:27-31 | `.matches` passes on an absent value and otherwise exactly on a `DD:DD:DD` string with fields in range |
| `ScheduleValidation.IsGreaterHolds` | DeliverUS-Frontend-Owner/src/screens/restaurants/CreateScheduleScreen.js:34-44 | with both values present and `DD:DD:DD`-shaped the test passes exactly when the end's seconds exceed the start's, in range or not; a present end without ':' fails it when the start is present |
| `ScheduleValidation.PassesIff` | DeliverUS-Frontend-Owner/src/screens/restaurants/CreateScheduleScreen.js:24-45 | the form has no error exactly when both times are strings matching the pattern and the end's seconds strictly exceed the start's |
| `ScheduleValidation.FormatIff` | DeliverUS-Frontend-Owner/src/screens/restaurants/CreateScheduleScreen.js:27-31 | a field reports Format exactly when it holds a non-empty string the pattern rejects |
| `ScheduleValidation.WellFormedOrdering` | DeliverUS-Frontend-Owner/src/screens/restaurants/CreateScheduleScreen.js:43 | with two well-formed times `startTime` has no error and `endTime` has exactly Ordering when its seconds do not exceed the start's (equal times fail) |
| `ScheduleValidation.AbsentSkipsOrdering` | DeliverUS-Frontend-Owner/src/screens/restaurants/CreateScheduleScreen.js:37 | when either value is null or empty the ordering test passes, and an absent field reports only Required |
| `ScheduleValidation.StartErrorsIgnoreEnd` | DeliverUS-Frontend-Owner/src/screens/restaurants/CreateScheduleScreen.js:25-28 | the errors of `startTime` do not depend on `endTime` |
| `ScheduleValidation.OrderingOnClockShapes` | DeliverUS-Frontend-Owner/src/screens/restaurants/CreateScheduleScreen.js:34-44 | for any two `DD:DD:DD` texts the ordering fails exactly when the end's seconds do not exceed the start's, even out of range |
| `ScheduleValidation.ClockShapeErrors` | DeliverUS-Frontend-Owner/src/screens/restaurants/CreateScheduleScreen.js:24-45 | for two `DD:DD:DD` texts: Format on each field out of range, plus Ordering on `endTime` when its seconds do not exceed the start's |
| `ScheduleValidation.MissingPieceFailsOrdering` | DeliverUS-Frontend-Owner/src/screens/restaurants/CreateScheduleScreen.js:39-43 | a non-empty end without ':' makes `toSeconds` NaN, so the ordering fails |
| `ScheduleValidation.OrderedExample` | DeliverUS-Frontend-Owner/src/screens/restaurants/CreateScheduleScreen.js:24-45 | 08:00:00 to 17:00:00 passes |
| `ScheduleValidation.ReversedExample` | DeliverUS-Frontend-Owner/src/screens/restaurants/CreateScheduleScreen.js:43 | 17:00:00 to 08:00:00 fails Ordering on `endTime` only |
| `ScheduleValidation.EqualExample` | DeliverUS-Frontend-Owner/src/screens/restaurants/CreateScheduleScreen.js:43 | 09:00:00 to 09:00:00 fails Ordering on `endTime` only |
| `ScheduleValidation.OutOfRangeStartExample` | DeliverUS-Frontend-Owner/src/screens/restaurants/CreateScheduleScreen.js:34-44 | 25:00:00 to 10:00:00 gives Format on `startTime` and Ordering on `endTime` |
| `ScheduleValidation.EmptyStartExample` | DeliverUS-Frontend-Owner/src/screens/restaurants/CreateScheduleScreen.js:28 | an empty start with end 10:00:00 gives only Required on `startTime` |
| `CreateScheduleScreen.InitialValues` | DeliverUS-Frontend-Owner/src/screens/restaurants/CreateScheduleScreen.js:17-19 | the fresh form keeps the route's (possibly missing) `id` as `restaurantId` and fails exactly the two Required rules |
| `CreateScheduleScreen.InitialValuesMessages` | DeliverUS-Frontend-Owner/src/screens/restaurants/CreateScheduleScreen.js:17-32 | the fresh form shows exactly "Start Time is required" and "End Time is required" |
| `CreateScheduleScreen.OrderingMessageOnEndTime` | DeliverUS-Frontend-Owner/src/screens/restaurants/CreateScheduleScreen.js:34 | "End time must be later than start time" is never reported on `startTime`, and is reported on `endTime` exactly when both values are present and `toSeconds(end) > toSeconds(start)` is false |
| `CreateScheduleScreen.RequiredMessages` | DeliverUS-Frontend-Owner/src/screens/restaurants/CreateScheduleScreen.js:28-32 | "Start Time is required" appears exactly when the start is missing, "End Time is required" exactly when the end is missing |
| `EditScheduleScreen.SameSchemaAsCreate` | DeliverUS-Frontend-Owner/src/screens/restaurants/EditScheduleScreen.js:25-48 | the edit form reports the same messages as the create form for every input |
| `EditScheduleScreen.FindIndex` | DeliverUS-Frontend-Owner/src/screens/restaurants/EditScheduleScreen.js:55 | the position found holds the id and no earlier position does; none found means no position holds it |
| `EditScheduleScreen.FindById` | DeliverUS-Frontend-Owner/src/screens/restaurants/EditScheduleScreen.js:55 | the result is absent exactly when no schedule has the id, and otherwise is the first schedule with that id |
| `EditScheduleScreen.InitialValues` | DeliverUS-Frontend-Owner/src/screens/restaurants/EditScheduleScreen.js:22 | before the lookup `restaurantId` is the route's `id` and exactly the two Required rules fail |
| `EditScheduleScreen.LoadedValues` | DeliverUS-Frontend-Owner/src/screens/restaurants/EditScheduleScreen.js:61-64 | the loaded values carry no `restaurantId` and pass exactly when the schedule's times are well formed and ordered |
| `EditScheduleScreen.EditScheduleState.constructor` | DeliverUS-Frontend-Owner/src/screens/restaurants/EditScheduleScreen.js:19-22 | the state starts with no schedule and with null times and the route's `id` as `restaurantId` |
| `EditScheduleScreen.EditScheduleState.FetchSchedule` | DeliverUS-Frontend-Owner/src/screens/restaurants/EditScheduleScreen.js:52-66 | a failed request or a missing id reports the error ("Schedule Not Found" for the latter) and leaves `schedule` and `initialValues` unchanged; a match stores that schedule and sets the initial values to exactly its two times |

## Left out

- `JsValues.ToNumber`: every piece that is not a (possibly empty) string of ASCII digits is taken to give NaN, whereas JavaScript's `Number` also accepts surrounding whitespace, a sign, a decimal point, an exponent, a hex prefix and "Infinity"; the ordering test on such texts is therefore modelled as failing. Digit strings, and the products and sums built from them, are kept as exact unbounded integers, whereas JavaScript rounds them to doubles above 2^53 and overflows to Infinity for about 310 digits or more; so on texts whose fields have 13 or more digits (which already fail Format) the Ordering result may differ, e.g. `"6000000000000:0:0"` to `"6000000000000:0:1"` passes the ordering here but fails it in JavaScript. Every `DD:DD:DD` text is computed exactly in both.
- Values other than `null` and strings (yup's string type check and casting) are not modelled; the form's inputs only produce those two.
- yup's type check on `null`: a `null` field is taken to fail only `.required` and to be skipped by `.matches` and the `is-greater` test, as yup 1 does; a yup version in which `null` fails the `string()` type check and stops the other tests is not modelled (the version is not fixed by the screens).
- Which single message the form shows when a field fails several rules, and in what order yup reports them: the model gives the set of failed rules and messages.
- The conversion of `''` to `undefined` by the form library before yup runs is assumed, not modelled.
- The submit handlers `createSchedule` and `updateSchedule`: network calls, backend error display and navigation.
- `EditScheduleScreen.EditScheduleState.FetchSchedule`: the `getSchedules(restaurantId)` request is a parameter holding its answer, and the flash message shown on failure is not built; the method returns the error text instead. Re-running the effect when the route's id changes is not modelled.
- The loose `==` of the id comparison: ids are integers.
- Rendering, `ScheduleListScreen.js`, `RestaurantsStack.js` and `SchedulesEndpoints.js` (URL templates over an HTTP helper that is not part of this model).
- No check for overlapping schedules of one restaurant exists in the code, and none is modelled.
