/** The edit-schedule form: the same validation schema as the create form, and the lookup that
    loads the schedule being edited into the form. */
module EditScheduleScreen {
  import opened Wrappers
  import opened ScheduleValidation
  import CreateScheduleScreen

  const ValidationMessages := Messages(
    "Start time must be in HH:mm:ss format", "Start Time is required",
    "End time must be in HH:mm:ss format", "End Time is required",
    "End time must be later than start time")

  /** The messages the schema reports for the given values. */
  function Errors(values: FormValues): FieldMessages
  {
    Describe(ValidationMessages, Validate(values))
  }

  /** The edit form reports exactly what the create form reports, for every input. */
  lemma SameSchemaAsCreate(values: FormValues)
    ensures Errors(values) == CreateScheduleScreen.Errors(values)
  {
  }

  /** A schedule as the server lists it. */
  datatype Schedule = Schedule(id: int, startTime: string, endTime: string, restaurantId: int)

  const NotFoundMessage := "Schedule Not Found"

  /** Position of the first schedule with the given id (`Array.prototype.find`). */
  function FindIndex(schedules: seq<Schedule>, id: int): (r: Option<nat>)
    ensures r.Some? ==>
      r.value < |schedules| && schedules[r.value].id == id &&
      forall j :: 0 <= j < r.value ==> schedules[j].id != id
    ensures r.None? ==> forall j :: 0 <= j < |schedules| ==> schedules[j].id != id
  {
    if schedules == [] then None
    else if schedules[0].id == id then Some(0)
    else
      match FindIndex(schedules[1..], id)
      case None => None
      case Some(k) => Some(k + 1)
  }

  /** The first schedule whose id is `id`, if there is one. */
  function FindById(schedules: seq<Schedule>, id: int): (r: Option<Schedule>)
    ensures r.None? <==> forall j :: 0 <= j < |schedules| ==> schedules[j].id != id
    ensures r.Some? ==>
      exists i :: 0 <= i < |schedules| && schedules[i] == r.value &&
        r.value.id == id && forall j :: 0 <= j < i ==> schedules[j].id != id
  {
    match FindIndex(schedules, id)
    case None => None
    case Some(k) => Some(schedules[k])
  }

  /** Before the lookup: both times `null`, so both Required rules fail and the ordering test is
      vacuous; `restaurantId` is set from the route's `id`. */
  function InitialValues(routeId: int): (v: FormValues)
    ensures v.restaurantId == Some(routeId)
    ensures Validate(v) == FieldErrors({Required}, {Required})
  {
    FormValues(Null, Null, Some(routeId))
  }

  /** After the lookup: the schedule's two times, and no `restaurantId` key. */
  function LoadedValues(s: Schedule): (v: FormValues)
    ensures v.restaurantId == None
    ensures Passes(Validate(v)) <==> OrderedTimes(Str(s.startTime), Str(s.endTime))
  {
    PassesIff(FormValues(Str(s.startTime), Str(s.endTime), None));
    FormValues(Str(s.startTime), Str(s.endTime), None)
  }

  /** The component state the screen keeps: the route's ids, the schedule being edited (the
      empty object `{}` before it is loaded) and the values the form is initialised with. */
  class EditScheduleState {
    const id: int
    const restaurantId: int
    var schedule: Option<Schedule>
    var initialValues: FormValues

    constructor (id: int, restaurantId: int)
      ensures this.id == id && this.restaurantId == restaurantId
      ensures schedule == None && initialValues == InitialValues(id)
    {
      this.id := id;
      this.restaurantId := restaurantId;
      schedule := None;
      initialValues := InitialValues(id);
    }

    /** `fetchSchedule`, given what `getSchedules(restaurantId)` answered. On a failed request or
        a missing schedule it reports the error and changes nothing; otherwise it stores the
        schedule and then the form's initial values. */
    method FetchSchedule(response: Result<seq<Schedule>>) returns (error: Option<string>)
      modifies this
      ensures response.Err? ==>
        error == Some(response.message) &&
        schedule == old(schedule) && initialValues == old(initialValues)
      ensures response.Ok? && FindById(response.value, id).None? ==>
        error == Some(NotFoundMessage) &&
        schedule == old(schedule) && initialValues == old(initialValues)
      ensures response.Ok? && FindById(response.value, id).Some? ==>
        error == None &&
        schedule == FindById(response.value, id) &&
        initialValues == LoadedValues(FindById(response.value, id).value)
    {
      if response.Err? {
        return Some(response.message);
      }
      var selected := FindById(response.value, id);
      if selected.None? {
        return Some(NotFoundMessage);
      }
      schedule := selected;
      initialValues := LoadedValues(selected.value);
      error := None;
    }
  }
}
