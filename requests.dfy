/**
 * The two request checks in front of the store: `create_task` refuses a
 * body without all four of its fields, and `set_view_mode` accepts only the
 * two known view modes. The settings table is a map from key to value.
 */
module Requests {
  import opened Wrappers
  import opened Json

  /** The status of a refused request. */
  const BadRequest := 400

  /** The body keys `create_task` needs, each with a true value. */
  const RequiredKeys: seq<string> := ["name", "command", "schedule_type", "schedule_config"]

  /** What `create_task` inserts: the four values; `enabled` takes the column default, 1. */
  datatype NewTask = NewTask(name: Json, command: Json, scheduleType: Json, scheduleConfig: Json)

  /** `if not all([name, command, schedule_type, schedule_config])` in `create_task`. */
  function CheckCreateTask(data: map<string, Json>): (r: Result<NewTask, int>)
    ensures r.Success? <==> forall key :: key in RequiredKeys ==> key in data && Truthy(data[key])
    ensures r.Failure? ==> r.error == BadRequest
    ensures r.Success? ==>
      r.value == NewTask(data["name"], data["command"], data["schedule_type"], data["schedule_config"])
  {
    var name, command := Get(data, "name"), Get(data, "command");
    var scheduleType, scheduleConfig := Get(data, "schedule_type"), Get(data, "schedule_config");
    if Truthy(name) && Truthy(command) && Truthy(scheduleType) && Truthy(scheduleConfig) then
      Success(NewTask(name, command, scheduleType, scheduleConfig))
    else Failure(BadRequest)
  }

  const ViewModeKey := "view_mode"
  const DefaultViewMode := "list"
  const ViewModes: set<string> := {"list", "button"}

  /** `set_view_mode`: the mode to save (`list` when the body has none), or 400 for any other value. */
  function CheckViewMode(data: map<string, Json>): (r: Result<string, int>)
    ensures r.Success? <==> ViewModeKey !in data || data[ViewModeKey] == Str("list") || data[ViewModeKey] == Str("button")
    ensures r.Success? ==> r.value in ViewModes
    ensures r.Success? && ViewModeKey in data ==> data[ViewModeKey] == Str(r.value)
    ensures r.Success? && ViewModeKey !in data ==> r.value == DefaultViewMode
    ensures r.Failure? ==> r.error == BadRequest
  {
    var mode := if ViewModeKey in data then data[ViewModeKey] else Str(DefaultViewMode);
    if mode == Str("list") || mode == Str("button") then Success(mode.s) else Failure(BadRequest)
  }

  /** The settings after a `set_view_mode` request: `INSERT OR REPLACE` when accepted, untouched when refused. */
  function SetViewMode(settings: map<string, string>, data: map<string, Json>): (r: map<string, string>)
    ensures r.Keys == settings.Keys + (if CheckViewMode(data).Success? then {ViewModeKey} else {})
    ensures ViewModeKey in r && ViewModeKey !in settings ==> r[ViewModeKey] in ViewModes
  {
    match CheckViewMode(data)
    case Success(mode) => settings[ViewModeKey := mode]
    case Failure(_) => settings
  }

  /** `get_view_mode` and `index`: the saved mode, or `list` when there is none. */
  function ViewMode(settings: map<string, string>): (r: string)
    ensures r == DefaultViewMode || (ViewModeKey in settings && r == settings[ViewModeKey])
  {
    if ViewModeKey in settings then settings[ViewModeKey] else DefaultViewMode
  }

  /**
   * An accepted mode is what is read back afterwards; a refused request
   * leaves the mode as it was; so the mode read back is always one of the
   * two known ones when it was before.
   */
  lemma ViewModeRoundTrip(settings: map<string, string>, data: map<string, Json>)
    ensures CheckViewMode(data).Success? ==> ViewMode(SetViewMode(settings, data)) == CheckViewMode(data).value
    ensures CheckViewMode(data).Failure? ==> SetViewMode(settings, data) == settings
    ensures ViewMode(settings) in ViewModes ==> ViewMode(SetViewMode(settings, data)) in ViewModes
    ensures forall key :: key in settings && key != ViewModeKey ==>
      key in SetViewMode(settings, data) && SetViewMode(settings, data)[key] == settings[key]
  {
  }
}
