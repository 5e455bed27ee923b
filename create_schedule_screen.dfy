/** The create-schedule form: its initial values and its validation schema. */
module CreateScheduleScreen {
  import opened Wrappers
  import opened ScheduleValidation

  const ValidationMessages := Messages(
    "Start time must be in HH:mm:ss format", "Start Time is required",
    "End time must be in HH:mm:ss format", "End Time is required",
    "End time must be later than start time")

  /** Both times start as `null`; `restaurantId` is the route's `id`, which may be missing. */
  function InitialValues(routeId: Option<int>): (v: FormValues)
    ensures v.restaurantId == routeId
    ensures Validate(v) == FieldErrors({Required}, {Required})
  {
    FormValues(Null, Null, routeId)
  }

  /** The messages the schema reports for the given values. */
  function Errors(values: FormValues): FieldMessages
  {
    Describe(ValidationMessages, Validate(values))
  }

  /** The fresh form shows only the two Required messages. */
  lemma InitialValuesMessages(routeId: Option<int>)
    ensures Errors(InitialValues(routeId)) ==
      FieldMessages({"Start Time is required"}, {"End Time is required"})
  {
  }

  /** The ordering message is reported on `endTime` exactly when the ordering fails, and never
      on `startTime`. */
  lemma OrderingMessageOnEndTime(values: FormValues)
    ensures "End time must be later than start time" !in Errors(values).startTime
    ensures "End time must be later than start time" in Errors(values).endTime <==>
      !Falsy(values.startTime) && !Falsy(values.endTime) &&
      !JsValues.Greater(TimeFormat.ToSeconds(values.endTime.text), TimeFormat.ToSeconds(values.startTime.text))
  {
  }

  /** A missing start, and only a missing start, yields "Start Time is required"; likewise for
      the end, whatever the other field holds. */
  lemma RequiredMessages(values: FormValues)
    ensures "Start Time is required" in Errors(values).startTime <==> Falsy(values.startTime)
    ensures "End Time is required" in Errors(values).endTime <==> Falsy(values.endTime)
  {
  }
}
