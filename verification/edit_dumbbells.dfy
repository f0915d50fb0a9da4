/**
 * app/onboarding/training-place/edit-dumbbells.tsx: the list of dumbbell
 * weights and the picker over it.  Weights are in half-pounds, so 2.5 lb is
 * 5 and 125 lb is 250.
 */
module EditDumbbells {
  import opened Seqs
  import opened Profile
  import WeightPicker

  /** The `k`-th listed weight: 2.5 to 30 lb in steps of 2.5, then 35 to
      125 lb in steps of 5. */
  function Option(k: nat): int {
    if k < 12 then 5 * (k + 1) else 70 + 10 * (k - 12)
  }

  const DUMBBELL_OPTIONS: seq<int> := seq(31, k requires 0 <= k < 31 => Option(k))

  /** The two loops that build `dumbbellWeights` (each step is exact in
      binary floating point, so the loop bounds are hit exactly). */
  method GenerateWeights() returns (ws: seq<int>)
    ensures ws == DUMBBELL_OPTIONS
    ensures |ws| == 31 && ws[0] == 5 && ws[11] == 60 && ws[12] == 70 && ws[30] == 250
    ensures WeightPicker.StrictlyAscending(ws)
  {
    ws := [];
    var i := 5;
    while i <= 60
      invariant 5 <= i <= 65 && i % 5 == 0
      invariant |ws| == i / 5 - 1
      invariant forall k :: 0 <= k < |ws| ==> ws[k] == Option(k)
    {
      ws := ws + [i];
      i := i + 5;
    }
    var j := 70;
    while j <= 250
      invariant 70 <= j <= 260 && j % 10 == 0
      invariant |ws| == 12 + (j - 70) / 10
      invariant forall k :: 0 <= k < |ws| ==> ws[k] == Option(k)
    {
      ws := ws + [j];
      j := j + 10;
    }
    OptionsAscending();
  }

  /** The list is strictly ascending, hence has no repeated weight. */
  lemma OptionsAscending()
    ensures WeightPicker.StrictlyAscending(DUMBBELL_OPTIONS)
    ensures NoDup(DUMBBELL_OPTIONS)
  {
    WeightPicker.AscendingNoDup(DUMBBELL_OPTIONS);
  }

  /** Opening the screen with no stored list selects all 31 weights and
      saves them in ascending order. */
  lemma OpenWithoutStoredList(profile: Record)
    requires Get(profile, DUMBBELL_WEIGHTS) == Undefined
    ensures WeightPicker.Open(profile, DUMBBELL_WEIGHTS, DUMBBELL_OPTIONS).0 == DUMBBELL_OPTIONS
    ensures Get(WeightPicker.Open(profile, DUMBBELL_WEIGHTS, DUMBBELL_OPTIONS).1, DUMBBELL_WEIGHTS) == NumList(DUMBBELL_OPTIONS)
  {
    OptionsAscending();
    WeightPicker.OpenUnstored(profile, DUMBBELL_WEIGHTS, DUMBBELL_OPTIONS);
  }

  /** "Select all" then "Deselect all" from an empty selection. */
  lemma SelectAllThenDeselectAll()
    ensures WeightPicker.ToggleAll([], DUMBBELL_OPTIONS) == DUMBBELL_OPTIONS
    ensures WeightPicker.ToggleAll(DUMBBELL_OPTIONS, DUMBBELL_OPTIONS) == []
  {
    OptionsAscending();
  }

  /** The count-only test: a stored list of 31 weights none of which is on
      the list reads as "all selected", and "Deselect all" is offered. */
  lemma CountOnlyAllSelected()
    ensures var foreign := seq(31, k requires 0 <= k < 31 => 1000 + k);
      WeightPicker.AllSelected(foreign, DUMBBELL_OPTIONS) && 5 !in foreign
  {
  }
}
