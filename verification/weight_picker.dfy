/**
 * The selection logic shared by the dumbbell and plate pickers
 * (app/onboarding/training-place/edit-dumbbells.tsx and edit-plates.tsx):
 * a set of selected weights drawn from a fixed list of options, saved to
 * the profile in ascending order after every change.
 *
 * Weights are integers in a unit fine enough for the list at hand
 * (half-pounds for dumbbells, quarter-pounds for plates), so the numeric
 * comparator `(a, b) => a - b` is exact.
 */
module WeightPicker {
  import opened Wrappers
  import opened Seqs
  import opened Sorting
  import opened Profile

  /** Every element is smaller than the next one. */
  predicate StrictlyAscending(s: seq<int>) {
    forall i :: 0 < i < |s| ==> s[i - 1] < s[i]
  }

  /** The `useState` initialiser: a stored list, even an empty one, wins;
      `undefined` selects every option. */
  function InitialSelection(stored: Option<seq<int>>, options: seq<int>): (r: seq<int>)
    ensures NoDup(r)
    ensures stored.Some? ==> forall w :: w in r <==> w in stored.value
    ensures stored.None? ==> forall w :: w in r <==> w in options
    ensures stored.None? && NoDup(options) ==> r == options
  {
    match stored
    case Some(ws) => FromSeq(ws)
    case None => FromSeq(options)
  }

  /** The save effect: `updateField(field, Array.from(selected).sort((a, b) => a - b))`. */
  function Save(profile: Record, field: string, selection: seq<int>): (r: Record)
    requires NoDup(selection)
    ensures Get(r, field).NumList?
    ensures StrictlyAscending(Get(r, field).nums)
    ensures forall w :: w in Get(r, field).nums <==> w in selection
    ensures |Get(r, field).nums| == |selection|
    ensures forall f :: f != field ==> Get(r, f) == Get(profile, f)
  {
    SortIntsAscending(selection);
    UpdateField(profile, field, NumList(Sort(IntLe, selection)))
  }

  /** A strictly ascending list is saved as it is. */
  lemma SaveAscending(profile: Record, field: string, selection: seq<int>)
    requires StrictlyAscending(selection)
    ensures NoDup(selection)
    ensures Get(Save(profile, field, selection), field) == NumList(selection)
  {
    AscendingNoDup(selection);
    IntLeTotalOrder();
    SortedUnique(IntLe, Sort(IntLe, selection), selection);
  }

  /** A strictly ascending list repeats no weight. */
  lemma AscendingNoDup(s: seq<int>)
    requires StrictlyAscending(s)
    ensures NoDup(s)
  {
    forall i, j | 0 <= i < j < |s| ensures s[i] != s[j] {
      AscendingApart(s, i, j);
    }
  }

  lemma {:induction false} AscendingApart(s: seq<int>, i: nat, j: nat)
    requires StrictlyAscending(s) && i < j < |s|
    ensures s[i] < s[j]
    decreases j - i
  {
    if j > i + 1 {
      AscendingApart(s, i + 1, j);
    }
  }

  /** `handleToggleWeight` */
  function ToggleWeight(selection: seq<int>, w: int): (r: seq<int>)
    ensures w in r <==> w !in selection
    ensures forall x :: x != w ==> (x in r <==> x in selection)
    ensures NoDup(selection) ==> NoDup(r)
  {
    Toggle(selection, w)
  }

  /** `selectedWeights.size === options.length`: a count, not a membership
      test. */
  predicate AllSelected(selection: seq<int>, options: seq<int>) {
    |selection| == |options|
  }

  /** `handleToggleAll`: clear everything when the counts agree, otherwise
      select every option. */
  function ToggleAll(selection: seq<int>, options: seq<int>): (r: seq<int>)
    requires NoDup(options)
    ensures AllSelected(selection, options) ==> r == []
    ensures !AllSelected(selection, options) ==> r == options
  {
    if AllSelected(selection, options) then [] else FromSeq(options)
  }

  /** `a` holds only options. */
  predicate Within(a: seq<int>, options: seq<int>) {
    forall w :: w in a ==> w in options
  }

  /** Selections reached from the options by the screen's own actions hold
      only options: toggling a listed weight and toggling all keep that. */
  lemma ActionsStayWithin(selection: seq<int>, options: seq<int>, w: int)
    requires NoDup(options) && Within(selection, options) && w in options
    ensures Within(ToggleWeight(selection, w), options)
    ensures Within(ToggleAll(selection, options), options)
  {
  }

  /** While the selection holds only options, the count test means what it
      says: every option is selected. */
  lemma AllSelectedMeansEveryOption(selection: seq<int>, options: seq<int>)
    requires NoDup(selection) && NoDup(options) && Within(selection, options)
    ensures AllSelected(selection, options) <==> forall w :: w in options ==> w in selection
  {
    NoDupCard(selection);
    NoDupCard(options);
    var a, b := ToSet(selection), ToSet(options);
    assert a <= b;
    if forall w :: w in options ==> w in selection {
      assert a == b;
    }
    if AllSelected(selection, options) {
      assert |b - a| == 0 by {
        assert b == a + (b - a) && a !! (b - a);
      }
      assert b - a == {};
    }
  }

  /** Toggling all twice from a full selection comes back to it; from any
      other count it empties the selection. */
  lemma ToggleAllTwice(selection: seq<int>, options: seq<int>)
    requires NoDup(options) && |options| > 0
    ensures AllSelected(selection, options) ==> ToggleAll(ToggleAll(selection, options), options) == options
    ensures !AllSelected(selection, options) ==> ToggleAll(ToggleAll(selection, options), options) == []
  {
  }

  /** The save effect lists `updateField` among its dependencies, and the
      provider makes a new `updateField` on every render, so the effect runs
      again after each of its own writes.  Every run after the first writes
      the list already stored, so the record stays where the first run put it. */
  lemma SaveFixedPoint(profile: Record, field: string, selection: seq<int>)
    requires NoDup(selection)
    ensures Save(Save(profile, field, selection), field, selection) == Save(profile, field, selection)
  {
    LastWriteWins(profile, field, NumList(Sort(IntLe, selection)), NumList(Sort(IntLe, selection)));
  }

  /** Opening a picker: initialise, then the first run of the save effect. */
  function Open(profile: Record, field: string, options: seq<int>): (r: (seq<int>, Record))
    ensures NoDup(r.0)
    ensures forall w :: w in r.0 <==> w in (if WeightList(profile, field).Some? then WeightList(profile, field).value else options)
    ensures Get(r.1, field).NumList? && StrictlyAscending(Get(r.1, field).nums)
    ensures forall w :: w in Get(r.1, field).nums <==> w in r.0
    ensures |Get(r.1, field).nums| == |r.0|
    ensures forall f :: f != field ==> Get(r.1, f) == Get(profile, f)
    ensures WeightList(profile, field).None? && StrictlyAscending(options) ==>
      r.0 == options && Get(r.1, field) == NumList(options)
  {
    var selection := InitialSelection(WeightList(profile, field), options);
    if WeightList(profile, field).None? && StrictlyAscending(options) then
      SaveAscending(profile, field, options);
      (selection, Save(profile, field, selection))
    else
      (selection, Save(profile, field, selection))
  }

  /** With nothing stored, an ascending option list is selected whole and
      saved as it is. */
  lemma OpenUnstored(profile: Record, field: string, options: seq<int>)
    requires Get(profile, field) == Undefined && StrictlyAscending(options)
    ensures Open(profile, field, options).0 == options
    ensures Get(Open(profile, field, options).1, field) == NumList(options)
  {
  }

  /** A stored empty list is kept: nothing is selected and the empty list is
      saved back. */
  lemma OpenEmptyStored(profile: Record, field: string, options: seq<int>)
    requires Get(profile, field) == NumList([])
    ensures Open(profile, field, options).0 == []
    ensures Get(Open(profile, field, options).1, field) == NumList([])
  {
    var r := Open(profile, field, options);
    assert |r.0| == 0;
  }
}
