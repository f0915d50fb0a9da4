/**
 * The selection logic of app/onboarding/training-place/equipment.tsx: which
 * gym type applies, the initial selection, the write performed when the
 * screen mounts, toggling a card with its sorted write-back, and the weight
 * labels shown under the dumbbell and plate cards.
 *
 * The screen's state is the selection (an insertion-ordered set of ids), the
 * last selection written to the profile (`prevContextSelectionsRef`, whose
 * JSON text is compared; `JSON.stringify` is injective on string arrays, so
 * the sorted list itself is kept, `None` standing for the initial "") and
 * the profile record.  `getDefaultPlateWeights()` and
 * `getDefaultDumbbellWeights()` are parameters.
 */
module EquipmentScreen {
  import opened Wrappers
  import opened Seqs
  import opened Sorting
  import opened Strings
  import opened Profile
  import opened EquipmentHelpers

  datatype ScreenState = ScreenState(selection: seq<string>, lastKey: Option<seq<string>>, profile: Record)

  /** JavaScript truthiness of an optional string parameter. */
  predicate Truthy(param: Option<string>) {
    param.Some? && param.value != ""
  }

  /** `params.gymType || data.trainingPlace` */
  function ResolveGymType(param: Option<string>, data: Record): (r: Option<string>)
    ensures Truthy(param) ==> r == param
    ensures !Truthy(param) ==> r == StringField(data, TRAINING_PLACE)
  {
    if Truthy(param) then param else StringField(data, TRAINING_PLACE)
  }

  /** The gym type the screen works with. */
  function ScreenGym(param: Option<string>, data: Record): GymType {
    GymTypeOf(ResolveGymType(param, data))
  }

  /** The `useState` initialiser: a truthy parameter forces that gym's
      defaults; otherwise stored selections win when there are any; otherwise
      the defaults of the stored training place. */
  function InitialSelection(param: Option<string>, data: Record, catalogue: Catalogue): (r: seq<string>)
    ensures NoDup(r)
    ensures Truthy(param) ==> r == DefaultSelections(GymTypeOf(param), catalogue)
    ensures !Truthy(param) && |SelectedEquipment(data)| > 0 ==>
      forall id :: id in r <==> id in SelectedEquipment(data)
    ensures !Truthy(param) && |SelectedEquipment(data)| == 0 ==>
      r == DefaultSelections(GymTypeOf(StringField(data, TRAINING_PLACE)), catalogue)
  {
    if Truthy(param) then DefaultSelections(ScreenGym(param, data), catalogue)
    else if |SelectedEquipment(data)| > 0 then FromSeq(SelectedEquipment(data))
    else DefaultSelections(ScreenGym(param, data), catalogue)
  }

  /** `Array.from(selection).sort()` */
  function SortedIds(selection: seq<string>): (r: seq<string>)
    ensures forall id :: id in r <==> id in selection
    ensures Sorted(LexLe, r)
    ensures |r| == |selection|
    ensures multiset(r) == multiset(selection)
    ensures NoDup(selection) ==> NoDup(r)
  {
    LexLeTotal();
    Sort(LexLe, selection)
  }

  /** The screen and the profile agree: the profile holds the sorted
      selection, and that is what was last written. */
  predicate Synced(st: ScreenState) {
    NoDup(st.selection)
    && st.lastKey == Some(SortedIds(st.selection))
    && Get(st.profile, SELECTED_EQUIPMENT) == StrList(SortedIds(st.selection))
  }

  /** `if (cond) updateField(field, value)` for a weight list. */
  function SeedIf(p: Record, cond: bool, field: string, value: seq<int>): (r: Record)
    ensures Get(r, field) == if cond then NumList(value) else Get(p, field)
    ensures forall f :: f != field ==> Get(r, f) == Get(p, f)
  {
    if cond then UpdateField(p, field, NumList(value)) else p
  }

  /** Write `selection` sorted, then seed the plate and dumbbell weight
      lists as asked. */
  function WriteSelection(selection: seq<string>, profile: Record, seedPlates: bool, seedDumbbells: bool,
                          plateDefaults: seq<int>, dumbbellDefaults: seq<int>): (r: ScreenState)
    requires NoDup(selection)
    ensures Synced(r)
    ensures r.selection == selection
    ensures Get(r.profile, PLATE_WEIGHTS) == if seedPlates then NumList(plateDefaults) else Get(profile, PLATE_WEIGHTS)
    ensures Get(r.profile, DUMBBELL_WEIGHTS) == if seedDumbbells then NumList(dumbbellDefaults) else Get(profile, DUMBBELL_WEIGHTS)
    ensures forall f :: f !in {SELECTED_EQUIPMENT, PLATE_WEIGHTS, DUMBBELL_WEIGHTS} ==>
      Get(r.profile, f) == Get(profile, f)
  {
    var sorted := SortedIds(selection);
    var p1 := UpdateField(profile, SELECTED_EQUIPMENT, StrList(sorted));
    var p2 := SeedIf(p1, seedPlates, PLATE_WEIGHTS, plateDefaults);
    var p3 := SeedIf(p2, seedDumbbells, DUMBBELL_WEIGHTS, dumbbellDefaults);
    ScreenState(selection, Some(sorted), p3)
  }

  /** The reset branch of the gym-type effect: select the gym's defaults,
      write them sorted, and seed the weight lists of the plates and
      dumbbells when those are among the defaults. */
  function ResetToDefaults(gym: GymType, catalogue: Catalogue, profile: Record,
                           plateDefaults: seq<int>, dumbbellDefaults: seq<int>): (r: ScreenState)
    ensures Synced(r)
    ensures r.selection == DefaultSelections(gym, catalogue)
    ensures Get(r.profile, PLATE_WEIGHTS) ==
      if "plates" in r.selection then NumList(plateDefaults) else Get(profile, PLATE_WEIGHTS)
    ensures Get(r.profile, DUMBBELL_WEIGHTS) ==
      if "dumbbells" in r.selection then NumList(dumbbellDefaults) else Get(profile, DUMBBELL_WEIGHTS)
    ensures forall f :: f !in {SELECTED_EQUIPMENT, PLATE_WEIGHTS, DUMBBELL_WEIGHTS} ==>
      Get(r.profile, f) == Get(profile, f)
  {
    var defaults := DefaultSelections(gym, catalogue);
    WriteSelection(defaults, profile, "plates" in defaults, "dumbbells" in defaults, plateDefaults, dumbbellDefaults)
  }

  /** The initial-mount branch: write the current selection sorted, and seed
      a weight list only when its equipment is selected and the list is still
      `undefined`. */
  function WriteInitialSelection(selection: seq<string>, profile: Record,
                                 plateDefaults: seq<int>, dumbbellDefaults: seq<int>): (r: ScreenState)
    requires NoDup(selection)
    ensures Synced(r)
    ensures r.selection == selection
    ensures Get(r.profile, PLATE_WEIGHTS) ==
      if "plates" in selection && Get(profile, PLATE_WEIGHTS) == Undefined
      then NumList(plateDefaults) else Get(profile, PLATE_WEIGHTS)
    ensures Get(r.profile, DUMBBELL_WEIGHTS) ==
      if "dumbbells" in selection && Get(profile, DUMBBELL_WEIGHTS) == Undefined
      then NumList(dumbbellDefaults) else Get(profile, DUMBBELL_WEIGHTS)
    ensures forall f :: f !in {SELECTED_EQUIPMENT, PLATE_WEIGHTS, DUMBBELL_WEIGHTS} ==>
      Get(r.profile, f) == Get(profile, f)
  {
    WriteSelection(selection, profile,
      "plates" in selection && Get(profile, PLATE_WEIGHTS) == Undefined,
      "dumbbells" in selection && Get(profile, DUMBBELL_WEIGHTS) == Undefined,
      plateDefaults, dumbbellDefaults)
  }

  /** The first run of the gym-type effect.  On mount the gym type and the
      parameter equal their refs, so the reset branch runs exactly when the
      parameter is not `undefined` — an empty parameter included, even though
      the initialiser treated it as absent. */
  function Mount(param: Option<string>, data: Record, catalogue: Catalogue,
                 plateDefaults: seq<int>, dumbbellDefaults: seq<int>): (r: ScreenState)
    ensures Synced(r)
    ensures param.Some? ==> r.selection == DefaultSelections(ScreenGym(param, data), catalogue)
    ensures param.None? && |SelectedEquipment(data)| > 0 ==>
      forall id :: id in r.selection <==> id in SelectedEquipment(data)
    ensures param.None? && |SelectedEquipment(data)| == 0 ==>
      r.selection == DefaultSelections(ScreenGym(param, data), catalogue)
    ensures param.Some? ==>
      Get(r.profile, PLATE_WEIGHTS) ==
        (if "plates" in r.selection then NumList(plateDefaults) else Get(data, PLATE_WEIGHTS))
    ensures param.Some? ==>
      Get(r.profile, DUMBBELL_WEIGHTS) ==
        (if "dumbbells" in r.selection then NumList(dumbbellDefaults) else Get(data, DUMBBELL_WEIGHTS))
    ensures param.None? ==>
      Get(r.profile, PLATE_WEIGHTS) ==
        (if "plates" in r.selection && Get(data, PLATE_WEIGHTS) == Undefined
         then NumList(plateDefaults) else Get(data, PLATE_WEIGHTS))
    ensures param.None? ==>
      Get(r.profile, DUMBBELL_WEIGHTS) ==
        (if "dumbbells" in r.selection && Get(data, DUMBBELL_WEIGHTS) == Undefined
         then NumList(dumbbellDefaults) else Get(data, DUMBBELL_WEIGHTS))
    ensures forall f :: f !in {SELECTED_EQUIPMENT, PLATE_WEIGHTS, DUMBBELL_WEIGHTS} ==>
      Get(r.profile, f) == Get(data, f)
  {
    if param.Some? then
      ResetToDefaults(ScreenGym(param, data), catalogue, data, plateDefaults, dumbbellDefaults)
    else
      WriteInitialSelection(InitialSelection(param, data, catalogue), data, plateDefaults, dumbbellDefaults)
  }

  /** An empty `gymType` parameter resets to the stored training place's
      defaults, discarding stored selections the initialiser had kept. */
  lemma EmptyParamResets(data: Record, catalogue: Catalogue, pd: seq<int>, dd: seq<int>)
    ensures InitialSelection(Some(""), data, catalogue) ==
      (if |SelectedEquipment(data)| > 0 then FromSeq(SelectedEquipment(data))
       else DefaultSelections(GymTypeOf(StringField(data, TRAINING_PLACE)), catalogue))
    ensures Mount(Some(""), data, catalogue, pd, dd).selection ==
      DefaultSelections(GymTypeOf(StringField(data, TRAINING_PLACE)), catalogue)
  {
  }

  /** `handleToggleEquipment`: flip the id, and write the sorted selection
      when it differs from the last one written. */
  function ToggleEquipment(st: ScreenState, id: string): (r: ScreenState)
    ensures id in r.selection <==> id !in st.selection
    ensures forall x :: x != id ==> (x in r.selection <==> x in st.selection)
    ensures Synced(st) ==> Synced(r)
    ensures forall f :: f != SELECTED_EQUIPMENT ==> Get(r.profile, f) == Get(st.profile, f)
  {
    var selection := Toggle(st.selection, id);
    var sorted := SortedIds(selection);
    if st.lastKey != Some(sorted) then
      ScreenState(selection, Some(sorted), UpdateField(st.profile, SELECTED_EQUIPMENT, StrList(sorted)))
    else
      ScreenState(selection, st.lastKey, st.profile)
  }

  /** From a synced screen every toggle changes the sorted list, so the
      "only if changed" guard never skips the write. */
  lemma ToggleAlwaysWrites(st: ScreenState, id: string)
    requires Synced(st)
    ensures ToggleEquipment(st, id).lastKey != st.lastKey
    ensures ToggleEquipment(st, id).profile ==
      UpdateField(st.profile, SELECTED_EQUIPMENT, StrList(SortedIds(Toggle(st.selection, id))))
  {
    ToggleChangesKey(st.selection, id);
  }

  /** A toggle always changes the sorted list: the id enters or leaves it. */
  lemma ToggleChangesKey(selection: seq<string>, id: string)
    ensures SortedIds(Toggle(selection, id)) != SortedIds(selection)
  {
    assert id in SortedIds(Toggle(selection, id)) <==> id !in SortedIds(selection);
  }

  /** Toggling the same card twice restores the profile exactly, although
      the id may move to the end of the insertion-ordered selection. */
  lemma ToggleTwiceRestoresProfile(st: ScreenState, id: string)
    requires Synced(st)
    ensures ToggleEquipment(ToggleEquipment(st, id), id).profile == st.profile
    ensures ToggleEquipment(ToggleEquipment(st, id), id).lastKey == st.lastKey
  {
    var once := ToggleEquipment(st, id);
    ToggleAlwaysWrites(st, id);
    ToggleAlwaysWrites(once, id);
    var twice := ToggleEquipment(once, id);
    SameSetSameKey(twice.selection, st.selection);
    LastWriteWins(st.profile, SELECTED_EQUIPMENT, StrList(SortedIds(once.selection)), StrList(SortedIds(st.selection)));
    RewriteUnchanged(st.profile, SELECTED_EQUIPMENT, StrList(SortedIds(st.selection)));
  }

  /** Two selections with the same ids write the same sorted list. */
  lemma SameSetSameKey(a: seq<string>, b: seq<string>)
    requires NoDup(a) && NoDup(b)
    requires forall x :: x in a <==> x in b
    ensures SortedIds(a) == SortedIds(b)
  {
    LexLeTotalOrder();
    SortDependsOnSetOnly(LexLe, a, b);
  }

  // ---------------------------------------------------------------------------
  // Weight labels.

  /** A weight in half-pounds, printed as JavaScript prints the number of
      pounds: "2.5", "5", "17.5". */
  function FormatHalfPounds(h: nat): string {
    if h % 2 == 0 then Decimal(h / 2) else Decimal(h / 2) + ".5"
  }

  /** Every label reads back as the weight it was printed from. */
  lemma FormatHalfPoundsReadsBack(h: nat)
    ensures ParseHalfPounds(FormatHalfPounds(h)) == Some(h)
  {
    var whole := Decimal(h / 2);
    DecimalRoundTrip(h / 2);
    assert AllDigits(whole);
    if h % 2 == 1 {
      ParseHalf(whole);
      assert FormatHalfPounds(h) == whole + ".5";
    } else {
      ParseWhole(whole);
      assert FormatHalfPounds(h) == whole;
    }
  }

  /** Digits alone read back as a whole number of pounds. */
  lemma ParseWhole(digits: string)
    requires |digits| > 0 && AllDigits(digits)
    ensures ParseHalfPounds(digits) == Some(2 * DigitsValue(digits))
  {
  }

  /** Digits followed by ".5" read back as an odd number of half-pounds. */
  lemma ParseHalf(digits: string)
    requires |digits| > 0 && AllDigits(digits)
    ensures ParseHalfPounds(digits + ".5") == Some(2 * DigitsValue(digits) + 1)
  {
    var r := digits + ".5";
    assert r[|r| - 2] == '.';
    assert !AllDigits(r);
    assert r[|r| - 2..] == ".5";
    assert r[..|r| - 2] == digits;
  }

  /** Reads a pound label back into half-pounds: decimal digits for a whole
      number of pounds, or digits followed by ".5". */
  function ParseHalfPounds(s: string): Option<nat> {
    if |s| > 0 && AllDigits(s) then Some(2 * DigitsValue(s))
    else if |s| > 2 && s[|s| - 2..] == ".5" && AllDigits(s[..|s| - 2]) then
      Some(2 * DigitsValue(s[..|s| - 2]) + 1)
    else None
  }

  /** Different weights get different labels. */
  lemma HalfPoundLabelsDistinct(a: nat, b: nat)
    requires a != b
    ensures FormatHalfPounds(a) != FormatHalfPounds(b)
  {
    FormatHalfPoundsReadsBack(a);
    FormatHalfPoundsReadsBack(b);
  }

  /** `getSelectedWeights`: the dumbbell card lists 2.5 to 20 pounds in
      steps of 2.5 (every step is exact in binary floating point); the plate
      card lists a fixed set; any other card lists nothing. */
  method GetSelectedWeights(equipmentId: string) returns (r: seq<string>)
    ensures equipmentId == "dumbbells" ==> r == ["2.5", "5", "7.5", "10", "12.5", "15", "17.5", "20"]
    ensures equipmentId == "plates" ==> r == ["1.25", "2.5", "5", "10", "15", "20", "25", "35", "45", "50"]
    ensures equipmentId != "dumbbells" && equipmentId != "plates" ==> r == []
  {
    if equipmentId == "dumbbells" {
      var weights: seq<nat> := [];
      var i := 5;
      while i <= 40
        invariant 5 <= i <= 45 && i % 5 == 0
        invariant |weights| == i / 5 - 1
        invariant forall k :: 0 <= k < |weights| ==> weights[k] == 5 * (k + 1)
      {
        weights := weights + [i];
        i := i + 5;
      }
      assert weights == [5, 10, 15, 20, 25, 30, 35, 40];
      r := [];
      var k := 0;
      while k < |weights|
        invariant 0 <= k <= |weights|
        invariant |r| == k
        invariant forall j :: 0 <= j < k ==> r[j] == FormatHalfPounds(weights[j])
      {
        r := r + [FormatHalfPounds(weights[k])];
        k := k + 1;
      }
      DumbbellLabels(r);
    } else if equipmentId == "plates" {
      r := ["1.25", "2.5", "5", "10", "15", "20", "25", "35", "45", "50"];
    } else {
      r := [];
    }
  }

  lemma DumbbellLabels(r: seq<string>)
    requires |r| == 8
    requires forall j :: 0 <= j < 8 ==> r[j] == FormatHalfPounds(5 * (j + 1))
    ensures r == ["2.5", "5", "7.5", "10", "12.5", "15", "17.5", "20"]
  {
    assert FormatHalfPounds(5) == "2.5" && FormatHalfPounds(10) == "5";
    assert FormatHalfPounds(15) == "7.5" && FormatHalfPounds(20) == "10";
    assert FormatHalfPounds(25) == "12.5" && FormatHalfPounds(30) == "15";
    assert FormatHalfPounds(35) == "17.5" && FormatHalfPounds(40) == "20";
    assert r[0] == FormatHalfPounds(5);
    assert r[1] == FormatHalfPounds(10);
    assert r[2] == FormatHalfPounds(15);
    assert r[3] == FormatHalfPounds(20);
    assert r[4] == FormatHalfPounds(25);
    assert r[5] == FormatHalfPounds(30);
    assert r[6] == FormatHalfPounds(35);
    assert r[7] == FormatHalfPounds(40);
  }
}
