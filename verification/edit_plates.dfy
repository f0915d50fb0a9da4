/**
 * app/onboarding/training-place/edit-plates.tsx: the list of plate weights
 * and the picker over it.  Weights are in quarter-pounds, so 1.25 lb is 5
 * and 50 lb is 200.
 */
module EditPlates {
  import opened Seqs
  import opened Profile
  import WeightPicker

  /** 1.25, 2.5, 5, 10, 15, 20, 25, 35, 45 and 50 lb. */
  const PLATE_OPTIONS: seq<int> := [5, 10, 20, 40, 60, 80, 100, 140, 180, 200]

  /** The list is strictly ascending, hence has no repeated weight. */
  lemma OptionsAscending()
    ensures WeightPicker.StrictlyAscending(PLATE_OPTIONS)
    ensures NoDup(PLATE_OPTIONS)
  {
    WeightPicker.AscendingNoDup(PLATE_OPTIONS);
  }

  /** Opening the screen with no stored list selects all ten plates and
      saves them in ascending order. */
  lemma OpenWithoutStoredList(profile: Record)
    requires Get(profile, PLATE_WEIGHTS) == Undefined
    ensures WeightPicker.Open(profile, PLATE_WEIGHTS, PLATE_OPTIONS).0 == PLATE_OPTIONS
    ensures Get(WeightPicker.Open(profile, PLATE_WEIGHTS, PLATE_OPTIONS).1, PLATE_WEIGHTS) == NumList(PLATE_OPTIONS)
  {
    OptionsAscending();
    WeightPicker.OpenUnstored(profile, PLATE_WEIGHTS, PLATE_OPTIONS);
  }

  /** A stored empty list is kept: the screen opens with nothing selected
      and saves the empty list back. */
  lemma OpenWithEmptyStoredList(profile: Record)
    requires Get(profile, PLATE_WEIGHTS) == NumList([])
    ensures WeightPicker.Open(profile, PLATE_WEIGHTS, PLATE_OPTIONS).0 == []
    ensures Get(WeightPicker.Open(profile, PLATE_WEIGHTS, PLATE_OPTIONS).1, PLATE_WEIGHTS) == NumList([])
  {
    WeightPicker.OpenEmptyStored(profile, PLATE_WEIGHTS, PLATE_OPTIONS);
  }

  /** The count-only test: ten stored weights none of which is a listed
      plate read as "all selected". */
  lemma CountOnlyAllSelected()
    ensures var foreign := [1, 2, 3, 4, 6, 7, 8, 9, 11, 12];
      WeightPicker.AllSelected(foreign, PLATE_OPTIONS) && forall w :: w in foreign ==> w !in PLATE_OPTIONS
  {
  }
}
