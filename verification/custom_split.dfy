/**
 * app/onboarding/workout-split/custom.tsx: the list of custom workouts,
 * with removal, the edit lookup, the Continue button and the two
 * projections each card shows (a row of muscle icons and a muscle label).
 *
 * The muscle table `ADD_WORKOUT_MODAL.customMuscleGroups` is a parameter.
 */
module CustomSplit {
  import opened Wrappers
  import opened Seqs
  import opened Strings
  import opened Profile

  /** One entry of the muscle table: `{ id, name }`. */
  datatype MuscleGroup = MuscleGroup(id: string, name: string)

  const ICON_LIMIT := 6
  const LABEL_SEPARATOR := ", "

  /** `handleRemoveWorkout`: the workouts whose id differs, in order. */
  function RemoveWorkout(workouts: seq<Workout>, id: string): (r: seq<Workout>)
    ensures forall w :: w in r <==> w in workouts && w.id != id
    ensures forall i :: 0 <= i < |r| ==> r[i].id != id
    ensures |r| <= |workouts|
    ensures (forall w :: w in workouts ==> w.id != id) ==> r == workouts
  {
    if |workouts| == 0 then []
    else
      var rest := RemoveWorkout(workouts[1..], id);
      assert forall w :: w in workouts <==> w == workouts[0] || w in workouts[1..];
      if workouts[0].id == id then rest else [workouts[0]] + rest
  }

  /** Removal keeps ids unique. */
  lemma {:induction false} RemoveKeepsIdsUnique(workouts: seq<Workout>, id: string)
    requires UniqueWorkoutIds(workouts)
    ensures UniqueWorkoutIds(RemoveWorkout(workouts, id))
  {
    if |workouts| > 0 {
      RemoveKeepsIdsUnique(workouts[1..], id);
      var rest := RemoveWorkout(workouts[1..], id);
      if workouts[0].id != id {
        forall w | w in rest ensures w.id != workouts[0].id {
          var i :| 1 <= i < |workouts| && workouts[i] == w;
        }
      }
    }
  }

  /** Removal keeps the relative order: the result is a subsequence of
      the list, so two survivors appear in the order they had. */
  lemma {:induction false} RemoveKeepsOrder(workouts: seq<Workout>, id: string)
    ensures IsSubsequence(RemoveWorkout(workouts, id), workouts)
  {
    if |workouts| > 0 {
      RemoveKeepsOrder(workouts[1..], id);
      var rest := RemoveWorkout(workouts[1..], id);
      assert [workouts[0]] + workouts[1..] == workouts;
      if workouts[0].id == id {
        SubsequenceOfTail(rest, workouts[1..], workouts[0]);
      } else {
        assert ([workouts[0]] + rest)[1..] == rest;
      }
    }
  }

  /** The remove button writes the filtered list back and nothing else. */
  function HandleRemove(profile: Record, id: string): (r: Record)
    ensures Get(r, CUSTOM_WORKOUTS) == Workouts(RemoveWorkout(CustomWorkouts(profile), id))
    ensures forall f :: f != CUSTOM_WORKOUTS ==> Get(r, f) == Get(profile, f)
  {
    UpdateField(profile, CUSTOM_WORKOUTS, Workouts(RemoveWorkout(CustomWorkouts(profile), id)))
  }

  /** Removing a workout and adding it back at the end restores the list's
      contents when it was the last one. */
  lemma RemoveLastThenAppend(workouts: seq<Workout>, w: Workout)
    requires UniqueWorkoutIds(workouts + [w])
    ensures RemoveWorkout(workouts + [w], w.id) + [w] == workouts + [w]
  {
    RemoveAppend(workouts, [w], w.id);
    assert forall v :: v in workouts ==> v.id != w.id by {
      forall v | v in workouts ensures v.id != w.id {
        var i :| 0 <= i < |workouts| && workouts[i] == v;
        assert (workouts + [w])[i] == v && (workouts + [w])[|workouts|] == w;
      }
    }
  }

  lemma {:induction false} RemoveAppend(a: seq<Workout>, b: seq<Workout>, id: string)
    ensures RemoveWorkout(a + b, id) == RemoveWorkout(a, id) + RemoveWorkout(b, id)
  {
    if |a| > 0 {
      assert (a + b)[1..] == a[1..] + b;
      RemoveAppend(a[1..], b, id);
    } else {
      assert a + b == b;
    }
  }

  /** Removing by the same id twice is the same as removing once. */
  lemma RemoveIdempotent(workouts: seq<Workout>, id: string)
    ensures RemoveWorkout(RemoveWorkout(workouts, id), id) == RemoveWorkout(workouts, id)
  {
  }

  /** `handleContinue`: records the custom split and nothing else. */
  function Continue(profile: Record): (r: Record)
    ensures Get(r, WORKOUT_SPLIT) == Str("custom")
    ensures forall f :: f != WORKOUT_SPLIT ==> Get(r, f) == Get(profile, f)
  {
    UpdateField(profile, WORKOUT_SPLIT, Str("custom"))
  }

  /** `handleEditWorkout`: the workout to open, if one has that id; the
      modal is opened only when this is `Some`. */
  function EditTarget(profile: Record, id: string): (r: Option<Workout>)
    ensures r.None? <==> forall w :: w in CustomWorkouts(profile) ==> w.id != id
    ensures r.Some? ==> r.value in CustomWorkouts(profile) && r.value.id == id
  {
    FindWorkout(CustomWorkouts(profile), id)
  }

  /** Once a workout is removed the card cannot open it any more. */
  lemma RemovedCannotBeEdited(profile: Record, id: string)
    ensures EditTarget(HandleRemove(profile, id), id).None?
  {
  }

  /** `customMuscleGroups.find((mg) => mg.id === muscleId)`: the first
      entry with that id. */
  function FindMuscle(table: seq<MuscleGroup>, id: string): (r: Option<MuscleGroup>)
    ensures r.None? <==> forall g :: g in table ==> g.id != id
    ensures r.Some? ==> r.value in table && r.value.id == id
    ensures r.Some? ==> exists k :: 0 <= k < |table| && table[k] == r.value && forall j :: 0 <= j < k ==> table[j].id != id
  {
    if |table| == 0 then None
    else if table[0].id == id then Some(table[0])
    else
      var r := FindMuscle(table[1..], id);
      assert forall g :: g in table <==> g == table[0] || g in table[1..];
      if r.Some? then
        var k :| 0 <= k < |table[1..]| && table[1..][k] == r.value && forall j :: 0 <= j < k ==> table[1..][j].id != id;
        assert table[k + 1] == r.value;
        r
      else r
  }

  /** `muscleGroup?.name || muscleId`: the display name, or the raw id when
      the id is not in the table or its name is empty. */
  function MuscleName(table: seq<MuscleGroup>, id: string): (r: string)
    ensures |r| > 0 <==> |id| > 0 || (FindMuscle(table, id).Some? && |FindMuscle(table, id).value.name| > 0)
    ensures FindMuscle(table, id).None? ==> r == id
    ensures FindMuscle(table, id).Some? && |FindMuscle(table, id).value.name| > 0 ==>
      r == FindMuscle(table, id).value.name
    ensures FindMuscle(table, id).Some? && |FindMuscle(table, id).value.name| == 0 ==> r == id
  {
    match FindMuscle(table, id)
    case Some(g) => if |g.name| > 0 then g.name else id
    case None => id
  }

  /** `muscleGroup?.name.charAt(0) || "?"` */
  function IconLetter(table: seq<MuscleGroup>, id: string): (r: string)
    ensures |r| == 1
    ensures FindMuscle(table, id).None? ==> r == "?"
  {
    match FindMuscle(table, id)
    case Some(g) => if |g.name| > 0 then [g.name[0]] else "?"
    case None => "?"
  }

  /** An icon shows the first letter of the label's name exactly when the
      muscle has a non-empty display name. */
  lemma IconMatchesName(table: seq<MuscleGroup>, id: string)
    ensures FindMuscle(table, id).Some? && |FindMuscle(table, id).value.name| > 0 ==>
      IconLetter(table, id) == MuscleName(table, id)[..1]
    ensures FindMuscle(table, id).None? || |FindMuscle(table, id).value.name| == 0 ==>
      IconLetter(table, id) == "?" && MuscleName(table, id) == id
  {
  }

  /** `workout.muscleGroups.slice(0, 6).map(...)`: one icon per shown muscle. */
  function IconRow(table: seq<MuscleGroup>, muscles: seq<string>): (r: seq<string>)
    ensures |r| == if |muscles| < ICON_LIMIT then |muscles| else ICON_LIMIT
    ensures forall i :: 0 <= i < |r| ==> r[i] == IconLetter(table, muscles[i])
  {
    var shown := if |muscles| < ICON_LIMIT then muscles else muscles[..ICON_LIMIT];
    seq(|shown|, i requires 0 <= i < |shown| => IconLetter(table, shown[i]))
  }

  /** Adding muscles beyond the sixth leaves the icon row as it was. */
  lemma IconRowIgnoresTail(table: seq<MuscleGroup>, muscles: seq<string>, more: seq<string>)
    requires |muscles| >= ICON_LIMIT
    ensures IconRow(table, muscles + more) == IconRow(table, muscles)
  {
  }

  function Names(table: seq<MuscleGroup>, muscles: seq<string>): (r: seq<string>)
    ensures |r| == |muscles|
    ensures forall i :: 0 <= i < |r| ==> r[i] == MuscleName(table, muscles[i])
  {
    seq(|muscles|, i requires 0 <= i < |muscles| => MuscleName(table, muscles[i]))
  }

  /** The card's muscle label: names joined with ", ". */
  function MuscleLabel(table: seq<MuscleGroup>, muscles: seq<string>): string {
    Join(Names(table, muscles), LABEL_SEPARATOR)
  }

  /** The label of an empty workout is empty, of one muscle is that
      muscle's name, and each further muscle extends it by ", " and its
      name; its length is the names' lengths plus two per separator. */
  lemma MuscleLabelShape(table: seq<MuscleGroup>, muscles: seq<string>, m: string)
    ensures MuscleLabel(table, []) == ""
    ensures MuscleLabel(table, [m]) == MuscleName(table, m)
    ensures |muscles| > 0 ==>
      MuscleLabel(table, muscles + [m]) == MuscleLabel(table, muscles) + LABEL_SEPARATOR + MuscleName(table, m)
    ensures |muscles| > 0 ==>
      |MuscleLabel(table, muscles)| == SumLengths(Names(table, muscles)) + 2 * (|muscles| - 1)
  {
    if |muscles| > 0 {
      assert Names(table, muscles + [m]) == Names(table, muscles) + [MuscleName(table, m)];
      JoinSnoc(Names(table, muscles), MuscleName(table, m), LABEL_SEPARATOR);
      JoinLength(Names(table, muscles), LABEL_SEPARATOR);
    }
  }

  /** Ids missing from the table read back verbatim: with an empty table
      the label is the ids joined. */
  lemma UnknownMusclesShowIds(muscles: seq<string>)
    ensures MuscleLabel([], muscles) == Join(muscles, LABEL_SEPARATOR)
  {
    assert Names([], muscles) == muscles;
  }

  /** `${workout.name} - Workout ${index + 1}`: cards are numbered from one. */
  function CardTitle(w: Workout, index: nat): (r: string)
    ensures |r| > |w.name| + 11
    ensures r[..|w.name|] == w.name
    ensures r[|w.name|..|w.name| + 10] == " - Workout"
    ensures r[|w.name| + 10..|w.name| + 11] == " "
    ensures var digits := r[|w.name| + 11..];
      (forall i :: 0 <= i < |digits| ==> IsDigit(digits[i])) && DigitsValue(digits) == index + 1
  {
    DecimalRoundTrip(index + 1);
    var r := w.name + " - Workout " + Decimal(index + 1);
    assert r[|w.name| + 11..] == Decimal(index + 1);
    r
  }
}
