/**
 * The onboarding profile record of utils/onboardingContext.tsx: a record
 * keyed by field name, updated one field or one patch at a time.
 *
 * The source's record is an open object (`[key: string]: any`); here it is a
 * map from field name to a tagged value.  A field that is absent reads as
 * `undefined`, like a missing property.
 */
module Profile {
  import opened Wrappers

  /** Whether a workout was built from a split or from hand-picked muscles. */
  datatype WorkoutKind = SplitWorkout | CustomWorkout

  /** A saved workout: `{ id, name, type, muscleGroups }`. */
  datatype Workout = Workout(id: string, name: string, kind: WorkoutKind, muscleGroups: seq<string>)

  /** The values stored in the record.  Weights are scaled integers. */
  datatype Value =
    | Undefined
    | Str(str: string)
    | Num(num: int)
    | Flag(flag: bool)
    | StrList(strs: seq<string>)
    | NumList(nums: seq<int>)
    | Workouts(workouts: seq<Workout>)

  type Record = map<string, Value>

  // The field names the modelled screens read and write.
  const SELECTED_EQUIPMENT := "selectedEquipment"
  const PLATE_WEIGHTS := "plateWeights"
  const DUMBBELL_WEIGHTS := "dumbbellWeights"
  const CUSTOM_WORKOUTS := "customWorkouts"
  const WORKOUT_SPLIT := "workoutSplit"
  const TRAINING_PLACE := "trainingPlace"
  const NOTIFICATIONS_ENABLED := "notificationsEnabled"

  /** `initialData`: ten fields, all empty. */
  const INITIAL_DATA: Record := map[
    "firstName" := Str(""),
    "lastName" := Str(""),
    "email" := Str(""),
    "age" := Undefined,
    "gender" := Str(""),
    "reason" := Str(""),
    "fitnessGoals" := StrList([]),
    "experienceLevel" := Str(""),
    "workoutFrequency" := Str(""),
    "preferredWorkoutTime" := Str("")
  ]

  /** Reading `data[field]`: a missing field is `undefined`. */
  function Get(data: Record, field: string): Value {
    if field in data then data[field] else Undefined
  }

  /** `updateField(field, value)`: sets one field and keeps every other one. */
  function UpdateField(data: Record, field: string, value: Value): (r: Record)
    ensures Get(r, field) == value
    ensures r.Keys == data.Keys + {field}
    ensures forall f :: f != field ==> Get(r, f) == Get(data, f)
  {
    data[field := value]
  }

  /** `updateMultipleFields(fields)`: the patch's values win on the patch's
      fields, every other field keeps its value. */
  function UpdateMultipleFields(data: Record, fields: Record): (r: Record)
    ensures r.Keys == data.Keys + fields.Keys
    ensures forall f :: f in fields ==> Get(r, f) == fields[f]
    ensures forall f :: f !in fields ==> Get(r, f) == Get(data, f)
  {
    data + fields
  }

  /** `resetOnboarding()`: back to `initialData`, whatever came before. */
  function ResetOnboarding(data: Record): (r: Record)
    ensures r == INITIAL_DATA
    ensures |r| == 10 && Get(r, "age") == Undefined
  {
    INITIAL_DATA
  }

  /** `getOnboardingData()`: the current record, unmodified. */
  function GetOnboardingData(data: Record): (r: Record)
    ensures r == data
  {
    data
  }

  /** A one-field patch is the same as setting that field. */
  lemma SingleFieldPatch(data: Record, field: string, value: Value)
    ensures UpdateMultipleFields(data, map[field := value]) == UpdateField(data, field, value)
  {
  }

  /** Two writes to one field: the last one wins. */
  lemma LastWriteWins(data: Record, field: string, v1: Value, v2: Value)
    ensures UpdateField(UpdateField(data, field, v1), field, v2) == UpdateField(data, field, v2)
  {
  }

  /** Writing the value a field already holds changes nothing. */
  lemma RewriteUnchanged(data: Record, field: string, value: Value)
    requires field in data && data[field] == value
    ensures UpdateField(data, field, value) == data
  {
  }

  /** Writes to distinct fields commute. */
  lemma DistinctWritesCommute(data: Record, f1: string, v1: Value, f2: string, v2: Value)
    requires f1 != f2
    ensures UpdateField(UpdateField(data, f1, v1), f2, v2) == UpdateField(UpdateField(data, f2, v2), f1, v1)
  {
  }

  // Typed reads of the fields the screens use, with the source's fallbacks.

  /** `data.customWorkouts || []` */
  function CustomWorkouts(data: Record): seq<Workout> {
    match Get(data, CUSTOM_WORKOUTS)
    case Workouts(ws) => ws
    case _ => []
  }

  /** `data.selectedEquipment || []` */
  function SelectedEquipment(data: Record): seq<string> {
    match Get(data, SELECTED_EQUIPMENT)
    case StrList(ids) => ids
    case _ => []
  }

  /** A weight list field, `None` when `undefined`. */
  function WeightList(data: Record, field: string): Option<seq<int>> {
    match Get(data, field)
    case NumList(ws) => Some(ws)
    case _ => None
  }

  /** A string field, `None` when it holds no string. */
  function StringField(data: Record, field: string): Option<string> {
    match Get(data, field)
    case Str(s) => Some(s)
    case _ => None
  }

  /** `workouts.find((w) => w.id === id)`: the first workout with that id. */
  function FindWorkout(workouts: seq<Workout>, id: string): (r: Option<Workout>)
    ensures r.None? <==> forall w :: w in workouts ==> w.id != id
    ensures r.Some? ==> r.value in workouts && r.value.id == id
    ensures r.Some? ==>
      exists k :: 0 <= k < |workouts| && workouts[k] == r.value && forall j :: 0 <= j < k ==> workouts[j].id != id
  {
    if |workouts| == 0 then None
    else if workouts[0].id == id then Some(workouts[0])
    else
      var r := FindWorkout(workouts[1..], id);
      assert forall w :: w in workouts <==> w == workouts[0] || w in workouts[1..];
      if r.Some? then
        var k :| 0 <= k < |workouts[1..]| && workouts[1..][k] == r.value
          && forall j :: 0 <= j < k ==> workouts[1..][j].id != id;
        assert workouts[k + 1] == r.value;
        r
      else r
  }

  /** Workout ids are unique. */
  predicate UniqueWorkoutIds(workouts: seq<Workout>) {
    forall i, j :: 0 <= i < j < |workouts| ==> workouts[i].id != workouts[j].id
  }

  /** With unique ids, looking up the id of a listed workout finds it. */
  lemma FindListedWorkout(workouts: seq<Workout>, w: Workout)
    requires UniqueWorkoutIds(workouts) && w in workouts
    ensures FindWorkout(workouts, w.id) == Some(w)
  {
    var r := FindWorkout(workouts, w.id);
    var k :| 0 <= k < |workouts| && workouts[k] == r.value && forall j :: 0 <= j < k ==> workouts[j].id != w.id;
    var m :| 0 <= m < |workouts| && workouts[m] == w;
  }
}
