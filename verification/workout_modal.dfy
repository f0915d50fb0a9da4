/**
 * app/onboarding/workout-split/add-workout-modal.tsx: the modal that adds a
 * workout to the custom split or edits one.  It has two tabs: on the split
 * tab one split option and the Core switch are chosen; on the custom tab
 * any set of muscle groups is chosen.
 *
 * The option table `ADD_WORKOUT_MODAL.workoutSplitOptions` is a parameter,
 * and so is the id a new workout gets (`workout-${Date.now()}`).
 */
module WorkoutModal {
  import opened Wrappers
  import opened Seqs
  import opened Profile
  import opened SplitMapper

  const SPLIT_TAB := "workout-split"
  const CUSTOM_TAB := "custom"

  /** One row of the split tab: `{ id, title }`. */
  datatype SplitOption = SplitOption(id: string, title: string)

  /** The modal's state.  The tab is a string, as in the source, because
      the two tests of it differ: saving treats every tab other than the
      split tab as the custom tab, while `hasSelections` asks for "custom". */
  datatype ModalState = ModalState(activeTab: string, selectedOptions: seq<string>, coreEnabled: bool,
                                   selectedMuscles: seq<string>)

  const INITIAL_MODAL := ModalState(SPLIT_TAB, [], false, [])

  /** `handleToggleOption`: tapping the selected option clears the
      selection, tapping another selects only it. */
  function ToggleOption(selected: seq<string>, optionId: string): (r: seq<string>)
    ensures |r| <= 1
    ensures optionId in selected ==> r == []
    ensures optionId !in selected ==> r == [optionId]
  {
    if optionId in selected then [] else [optionId]
  }

  /** Tapping the same option twice leaves it the only selection exactly
      when it was selected before; from nothing, or from that option alone,
      two taps come back to where they started. */
  lemma ToggleOptionTwice(selected: seq<string>, optionId: string)
    ensures ToggleOption(ToggleOption(selected, optionId), optionId) ==
      if optionId in selected then [optionId] else []
    ensures selected == [] || selected == [optionId] ==>
      ToggleOption(ToggleOption(selected, optionId), optionId) == selected
  {
  }

  /** `handleToggleMuscleGroup` */
  function ToggleMuscle(selected: seq<string>, muscle: string): (r: seq<string>)
    ensures muscle in r <==> muscle !in selected
    ensures forall m :: m != muscle ==> (m in r <==> m in selected)
    ensures NoDup(selected) ==> NoDup(r)
    ensures muscle in selected ==> IsSubsequence(r, selected)
  {
    Toggle(selected, muscle)
  }

  /** Tapping a muscle twice restores the set of selected muscles (it may
      move to the end of the insertion order). */
  lemma ToggleMuscleTwice(selected: seq<string>, muscle: string)
    ensures forall m :: m in ToggleMuscle(ToggleMuscle(selected, muscle), muscle) <==> m in selected
    ensures muscle !in selected ==> ToggleMuscle(ToggleMuscle(selected, muscle), muscle) == selected
  {
    if muscle !in selected {
      ToggleTwice(selected, muscle);
    }
  }

  /** `workoutSplitOptions.find((opt) => selectedOptions.has(opt.id))`:
      the first option in table order that is selected. */
  function FirstSelected(options: seq<SplitOption>, selected: seq<string>): (r: Option<SplitOption>)
    ensures r.None? <==> forall o :: o in options ==> o.id !in selected
    ensures r.Some? ==> r.value in options && r.value.id in selected
    ensures r.Some? ==>
      exists k :: 0 <= k < |options| && options[k] == r.value && forall j :: 0 <= j < k ==> options[j].id !in selected
  {
    if |options| == 0 then None
    else if options[0].id in selected then Some(options[0])
    else
      var r := FirstSelected(options[1..], selected);
      assert forall o :: o in options <==> o == options[0] || o in options[1..];
      if r.Some? then
        var k :| 0 <= k < |options[1..]| && options[1..][k] == r.value
          && forall j :: 0 <= j < k ==> options[1..][j].id !in selected;
        assert options[k + 1] == r.value;
        r
      else r
  }

  /** The workout `handleAdd` builds, if any.  An edit keeps the edited
      workout's id; a new workout gets `freshId`. */
  function BuildWorkout(st: ModalState, options: seq<SplitOption>, editing: Option<Workout>, freshId: string): (r: Option<Workout>)
    ensures r.Some? ==> r.value.id == (if editing.Some? then editing.value.id else freshId)
    ensures st.activeTab == SPLIT_TAB ==>
      (r.None? <==> FirstSelected(options, st.selectedOptions).None?)
    ensures st.activeTab == SPLIT_TAB && r.Some? ==>
      var o := FirstSelected(options, st.selectedOptions).value;
      r.value.name == o.title && r.value.kind == SplitWorkout
      && r.value.muscleGroups == BuildMuscleGroups(o.id, st.coreEnabled)
    ensures st.activeTab != SPLIT_TAB ==> (r.None? <==> |st.selectedMuscles| == 0)
    ensures st.activeTab != SPLIT_TAB && r.Some? ==>
      r.value.name == "Custom" && r.value.kind == CustomWorkout && r.value.muscleGroups == st.selectedMuscles
  {
    var id := if editing.Some? then editing.value.id else freshId;
    if st.activeTab == SPLIT_TAB then
      match FirstSelected(options, st.selectedOptions)
      case None => None
      case Some(o) => Some(Workout(id, o.title, SplitWorkout, BuildMuscleGroups(o.id, st.coreEnabled)))
    else if |st.selectedMuscles| > 0 then
      Some(Workout(id, "Custom", CustomWorkout, st.selectedMuscles))
    else None
  }

  /** `currentWorkouts.map((w) => w.id === id ? updated : w)` */
  function ReplaceById(workouts: seq<Workout>, id: string, updated: Workout): (r: seq<Workout>)
    ensures |r| == |workouts|
    ensures forall i :: 0 <= i < |r| ==> r[i] == if workouts[i].id == id then updated else workouts[i]
  {
    seq(|workouts|, i requires 0 <= i < |workouts| => if workouts[i].id == id then updated else workouts[i])
  }

  function WorkoutIds(workouts: seq<Workout>): seq<string> {
    seq(|workouts|, i requires 0 <= i < |workouts| => workouts[i].id)
  }

  /** Editing in place keeps the list's ids, in order, and every entry with
      another id. */
  lemma ReplaceKeepsIds(workouts: seq<Workout>, updated: Workout)
    ensures WorkoutIds(ReplaceById(workouts, updated.id, updated)) == WorkoutIds(workouts)
    ensures forall w :: w in workouts && w.id != updated.id ==> w in ReplaceById(workouts, updated.id, updated)
  {
    var r := ReplaceById(workouts, updated.id, updated);
    forall w | w in workouts && w.id != updated.id ensures w in r {
      var i :| 0 <= i < |workouts| && workouts[i] == w;
      assert r[i] == w;
    }
  }

  /** Replacing a workout by itself changes nothing when ids are unique. */
  lemma ReplaceBySelf(workouts: seq<Workout>, w: Workout)
    requires UniqueWorkoutIds(workouts) && w in workouts
    ensures ReplaceById(workouts, w.id, w) == workouts
  {
    var r := ReplaceById(workouts, w.id, w);
    var k :| 0 <= k < |workouts| && workouts[k] == w;
    forall i | 0 <= i < |workouts| ensures r[i] == workouts[i] {
      if workouts[i].id == w.id {
        assert i == k;
      }
    }
  }

  /** The new workout list: unchanged when nothing was built, edited in
      place when editing, otherwise extended by one at the end. */
  function ApplyWorkout(workouts: seq<Workout>, editing: Option<Workout>, built: Option<Workout>): (r: seq<Workout>)
    ensures built.None? ==> r == workouts
    ensures built.Some? && editing.Some? ==> |r| == |workouts|
    ensures built.Some? && editing.Some? ==>
      forall i :: 0 <= i < |r| ==>
        r[i] == (if workouts[i].id == editing.value.id then built.value else workouts[i])
    ensures built.Some? && editing.None? ==> r == workouts + [built.value]
  {
    match built
    case None => workouts
    case Some(w) =>
      if editing.Some? then ReplaceById(workouts, editing.value.id, w) else workouts + [w]
  }

  /** `handleAdd` (the navigation back is left out). */
  function HandleAdd(profile: Record, st: ModalState, options: seq<SplitOption>, editing: Option<Workout>,
                     freshId: string): (r: Record)
    ensures BuildWorkout(st, options, editing, freshId).None? ==> r == profile
    ensures BuildWorkout(st, options, editing, freshId).Some? ==>
      Get(r, CUSTOM_WORKOUTS) == Workouts(ApplyWorkout(CustomWorkouts(profile), editing, BuildWorkout(st, options, editing, freshId)))
    ensures forall f :: f != CUSTOM_WORKOUTS ==> Get(r, f) == Get(profile, f)
  {
    var built := BuildWorkout(st, options, editing, freshId);
    if built.Some? then
      UpdateField(profile, CUSTOM_WORKOUTS, Workouts(ApplyWorkout(CustomWorkouts(profile), editing, built)))
    else profile
  }

  /** `hasSelections`: the Add button is highlighted. */
  predicate HasSelections(st: ModalState) {
    (st.activeTab == SPLIT_TAB && (|st.selectedOptions| > 0 || st.coreEnabled))
    || (st.activeTab == CUSTOM_TAB && |st.selectedMuscles| > 0)
  }

  /** How the highlighted Add button relates to what pressing it saves.  On
      the custom tab the two agree; on the split tab everything saved was
      highlighted, and the highlighted states that save nothing are exactly
      those whose selected option is not in the table (Core alone among
      them); under any other tab name nothing is highlighted. */
  lemma HighlightVersusSave(st: ModalState, options: seq<SplitOption>, editing: Option<Workout>, freshId: string)
    ensures st.activeTab == CUSTOM_TAB ==>
      (HasSelections(st) <==> BuildWorkout(st, options, editing, freshId).Some?)
    ensures st.activeTab == SPLIT_TAB && BuildWorkout(st, options, editing, freshId).Some? ==> HasSelections(st)
    ensures st.activeTab == SPLIT_TAB ==>
      (HasSelections(st) && BuildWorkout(st, options, editing, freshId).None? <==>
        FirstSelected(options, st.selectedOptions).None? && (|st.selectedOptions| > 0 || st.coreEnabled))
    ensures st.activeTab != SPLIT_TAB && st.activeTab != CUSTOM_TAB ==> !HasSelections(st)
  {
  }

  /** With Core on and no split chosen the Add button is highlighted, yet
      pressing it saves nothing. */
  lemma CoreAloneSavesNothing(profile: Record, options: seq<SplitOption>, editing: Option<Workout>, freshId: string)
    ensures var st := ModalState(SPLIT_TAB, [], true, []);
      HasSelections(st) && HandleAdd(profile, st, options, editing, freshId) == profile
  {
  }

  /** The edited workout: `find` over the stored workouts when a non-empty
      `workoutId` parameter is given. */
  function EditingWorkout(profile: Record, workoutId: Option<string>): (r: Option<Workout>)
    ensures workoutId.None? || workoutId == Some("") ==> r.None?
    ensures r.Some? ==> r.value in CustomWorkouts(profile) && Some(r.value.id) == workoutId
  {
    if workoutId.Some? && workoutId.value != "" then FindWorkout(CustomWorkouts(profile), workoutId.value) else None
  }

  /** The pre-fill effect: the tab follows the workout's type; a split
      workout selects the inferred split, when there is one, and sets Core
      from the inference; a custom workout selects its stored muscles. */
  function Prefill(st: ModalState, editing: Option<Workout>): (r: ModalState)
    ensures editing.None? ==> r == st
    ensures editing.Some? && editing.value.kind == SplitWorkout ==>
      var inf := InferSplitSelection(editing.value.muscleGroups);
      r.activeTab == SPLIT_TAB && r.coreEnabled == inf.coreEnabled
      && r.selectedOptions == (if inf.splitId.Some? then [inf.splitId.value] else st.selectedOptions)
      && r.selectedMuscles == st.selectedMuscles
    ensures editing.Some? && editing.value.kind == CustomWorkout ==>
      r.activeTab == CUSTOM_TAB && r.selectedOptions == st.selectedOptions && r.coreEnabled == st.coreEnabled
      && NoDup(r.selectedMuscles) && forall m :: m in r.selectedMuscles <==> m in editing.value.muscleGroups
  {
    match editing
    case None => st
    case Some(w) =>
      if w.kind == SplitWorkout then
        var inf := InferSplitSelection(w.muscleGroups);
        var opts := if inf.splitId.Some? then [inf.splitId.value] else st.selectedOptions;
        ModalState(SPLIT_TAB, opts, inf.coreEnabled, st.selectedMuscles)
      else
        ModalState(CUSTOM_TAB, st.selectedOptions, st.coreEnabled, FromSeq(w.muscleGroups))
  }

  /** Option ids are unique. */
  predicate UniqueOptionIds(options: seq<SplitOption>) {
    forall i, j :: 0 <= i < j < |options| ==> options[i].id != options[j].id
  }

  /** With one split selected, the first selected option is that split's. */
  lemma FirstSelectedSingle(options: seq<SplitOption>, o: SplitOption)
    requires UniqueOptionIds(options) && o in options
    ensures FirstSelected(options, [o.id]) == Some(o)
  {
    var r := FirstSelected(options, [o.id]);
    var k :| 0 <= k < |options| && options[k] == r.value && forall j :: 0 <= j < k ==> options[j].id !in [o.id];
    var m :| 0 <= m < |options| && options[m] == o;
  }

  /** Opening a saved split workout for editing and pressing Update without
      changing anything leaves the profile as it was: pre-fill recovers the
      split and the Core switch, and the rebuilt workout is the saved one. */
  lemma EditSplitWorkoutUnchanged(profile: Record, w: Workout, o: SplitOption, coreEnabled: bool, freshId: string)
    requires Get(profile, CUSTOM_WORKOUTS) == Workouts(CustomWorkouts(profile))
    requires UniqueWorkoutIds(CustomWorkouts(profile)) && w in CustomWorkouts(profile) && w.id != ""
    requires w.kind == SplitWorkout && o.id in SPLIT_IDS && w.name == o.title
    requires w.muscleGroups == BuildMuscleGroups(o.id, coreEnabled)
    ensures forall options: seq<SplitOption> :: UniqueOptionIds(options) && o in options ==>
      var editing := EditingWorkout(profile, Some(w.id));
      HandleAdd(profile, Prefill(INITIAL_MODAL, editing), options, editing, freshId) == profile
  {
    forall options: seq<SplitOption> | UniqueOptionIds(options) && o in options
      ensures var editing := EditingWorkout(profile, Some(w.id));
        HandleAdd(profile, Prefill(INITIAL_MODAL, editing), options, editing, freshId) == profile
    {
      var ws := CustomWorkouts(profile);
      FindListedWorkout(ws, w);
      var editing := EditingWorkout(profile, Some(w.id));
      assert editing == Some(w);
      SplitRoundTrip(o.id, coreEnabled);
      var st := Prefill(INITIAL_MODAL, editing);
      assert st == ModalState(SPLIT_TAB, [o.id], coreEnabled, []);
      FirstSelectedSingle(options, o);
      assert BuildWorkout(st, options, editing, freshId) == Some(w);
      ReplaceBySelf(ws, w);
      RewriteUnchanged(profile, CUSTOM_WORKOUTS, Workouts(ws));
    }
  }

  /** The same for a saved custom workout with distinct muscles, which the
      custom tab names "Custom". */
  lemma EditCustomWorkoutUnchanged(profile: Record, w: Workout, options: seq<SplitOption>, freshId: string)
    requires Get(profile, CUSTOM_WORKOUTS) == Workouts(CustomWorkouts(profile))
    requires UniqueWorkoutIds(CustomWorkouts(profile)) && w in CustomWorkouts(profile) && w.id != ""
    requires w.kind == CustomWorkout && w.name == "Custom" && NoDup(w.muscleGroups) && |w.muscleGroups| > 0
    ensures var editing := EditingWorkout(profile, Some(w.id));
      HandleAdd(profile, Prefill(INITIAL_MODAL, editing), options, editing, freshId) == profile
  {
    var ws := CustomWorkouts(profile);
    FindListedWorkout(ws, w);
    var editing := EditingWorkout(profile, Some(w.id));
    assert editing == Some(w);
    var st := Prefill(INITIAL_MODAL, editing);
    assert st.selectedMuscles == w.muscleGroups;
    assert BuildWorkout(st, options, editing, freshId) == Some(w);
    ReplaceBySelf(ws, w);
    RewriteUnchanged(profile, CUSTOM_WORKOUTS, Workouts(ws));
  }
}
