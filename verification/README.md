# Onboarding workout-split and equipment model

A Dafny model of the onboarding flow of a React Native fitness app: the
mapping between a workout split (full body, upper body, legs, push, pull)
plus the "Core" switch and the muscle groups a saved workout lists, the
add/edit workout modal and the custom-split list, the profile record the
onboarding screens write into, the equipment screens (gym-type defaults,
display groups, search filter, category grouping, sorted write-back), the
dumbbell and plate weight pickers, the rest-timer card of the notifications
screen, and the authentication flags with the root layout's route guards.

Conventions of the model:

- A JavaScript `Set` built by insertion is a duplicate-free `seq` in
  insertion order (`Seqs.Add`, `Seqs.Remove`, `Seqs.Toggle`, and
  `Seqs.FromSeq` for `Array.from(new Set(xs))`).
- `Array.prototype.sort` is a stable insertion sort `Sorting.Sort` under a
  comparator; strings compare by code points (`Strings.LexLe`), which also
  stands for `localeCompare`; numbers by `Sorting.IntLe`.
- The profile record is a `map<string, Value>`; a missing field reads as
  `undefined`.
- Weights are scaled integers: dumbbells in half-pounds (2.5 lb is 5),
  plates in quarter-pounds (1.25 lb is 5), so every value the screens use is
  exact.
- The equipment catalogue, the modal's option and muscle tables, the fresh
  workout id (`Date.now()`) and the default weight lists the equipment
  screen seeds are parameters.

Modules follow the source files: `SplitMapper` (helpers.ts), `WorkoutModal`
(add-workout-modal.tsx), `CustomSplit` (custom.tsx), `Profile`
(onboardingContext.tsx), `EquipmentHelpers` (equipment-helpers.ts),
`EquipmentScreen` (equipment.tsx), `SearchEquipment`
(search-equipment.tsx), `WeightPicker` with `EditDumbbells` and
`EditPlates` (edit-dumbbells.tsx, edit-plates.tsx), `Notifications`
(notifications.tsx), `Auth` (authContext.tsx) and `RootLayout`
(app/_layout.tsx); `Seqs`, `Sorting`, `Strings` and `Wrappers` hold the
shared library.

### Behaviour of the code worth knowing

- The full-body base list contains `abs`; the round trip from a split to
  its muscle groups and back holds for every split and Core setting all the
  same.
- Any gym type other than `"large-gym"` and `"small-gym"`, including a
  missing one, gets the garage-gym defaults.
- The small-gym and garage-gym defaults are fixed lists that are not
  filtered by the catalogue; only the large-gym defaults are drawn from it.
- An empty `gymType` route parameter (`""`) is not truthy for the
  initialiser, which keeps the stored selection, but is not `undefined` for
  the mount effect, which resets to the defaults (`EquipmentScreen.EmptyParamResets`).
- The weight pickers' "all selected" test compares counts only; a stored
  list of other weights with the right length reads as "all selected"
  (`EditDumbbells.CountOnlyAllSelected`, `EditPlates.CountOnlyAllSelected`).
- In the workout modal, Core on with no split chosen highlights the Add
  button but saves nothing (`WorkoutModal.CoreAloneSavesNothing`).

## Model

| member | source | states |
|---|---|---|
| SplitMapper.Lookup | app/onboarding/workout-split/helpers.ts:30 | an id outside the table has the empty base list (for an inherited property name the source differs, see "Left out"); a known one has the base list of its first entry |
| SplitMapper.FindMatch | app/onboarding/workout-split/helpers.ts:61-71 | no result exactly when no entry matches; a result is the id of a matching entry |
| SplitMapper.StripLowerBack | app/onboarding/workout-split/helpers.ts:58 | the remaining groups are the input's groups without lower-back |
| SplitMapper.StripAbs | app/onboarding/workout-split/helpers.ts:76 | the remaining groups are the input's groups without abs |
| SplitMapper.MatchesIsSetEquality | app/onboarding/workout-split/helpers.ts:66-69 | for a duplicate-free base list, "every group present and sizes equal" is set equality |
| SplitMapper.MatchesSetOnly | app/onboarding/workout-split/helpers.ts:63-69 | the match test depends only on the set of the groups to match |
| SplitMapper.FindMatchSetOnly | app/onboarding/workout-split/helpers.ts:61-71 | the search depends only on the set of the groups to match |
| SplitMapper.FindMatchFinds | app/onboarding/workout-split/helpers.ts:61-71 | when exactly one entry has the input's set, the search returns that entry's id |
| SplitMapper.FindMatchMisses | app/onboarding/workout-split/helpers.ts:61-71 | when no entry has the input's set, the search returns nothing |
| SplitMapper.AtMostOneMatch | app/onboarding/workout-split/helpers.ts:10-16 | in a well-formed table two matching entries are the same entry |
| SplitMapper.LookupEntry | app/onboarding/workout-split/helpers.ts:30 | with unique ids, looking up entry k's id gives entry k's list |
| SplitMapper.BuildWithCore | app/onboarding/workout-split/helpers.ts:33-37 | with Core, the list is the base list, then abs if it was missing, then lower-back |
| SplitMapper.AddCoreGroups | app/onboarding/workout-split/helpers.ts:34-36 | de-duplicating base + [abs, lower-back] keeps the base order and adds only what was missing |
| SplitMapper.RoundTripWithoutCore | app/onboarding/workout-split/helpers.ts:49-92 | a base list is recognised as its own split with Core off |
| SplitMapper.RoundTripWithCore | app/onboarding/workout-split/helpers.ts:49-92 | a base list with the Core groups is recognised as its split with Core on, via the abs-stripping retry when needed |
| SplitMapper.RoundTrip | app/onboarding/workout-split/helpers.ts:26-92 | for any well-formed table, inferring from the built list gives back the split and the Core setting |
| SplitMapper.InferSetOnly | app/onboarding/workout-split/helpers.ts:49-92 | the inference ignores order and repetition of its input |
| SplitMapper.InferSound | app/onboarding/workout-split/helpers.ts:53-91 | Core is detected iff both abs and lower-back are present; an inferred split's base set equals the input without lower-back (and without abs when Core is on) |
| SplitMapper.NoRetryWithoutCore | app/onboarding/workout-split/helpers.ts:75 | without Core the result is the first search alone |
| SplitMapper.SplitTableBasesClean | app/onboarding/workout-split/helpers.ts:10-16 | the five base lists are duplicate-free and lack lower-back |
| SplitMapper.Separates | app/onboarding/workout-split/helpers.ts:10-16 | a group in one list and not the other makes the sets differ |
| SplitMapper.SplitTableBasesDistinct | app/onboarding/workout-split/helpers.ts:10-16 | no two base lists have the same set |
| SplitMapper.SplitTableAbsUnambiguous | app/onboarding/workout-split/helpers.ts:10-16 | adding abs to a base list without it gives no other base set |
| SplitMapper.SplitTableIdsUnique | app/onboarding/workout-split/helpers.ts:10-16 | the five split ids are distinct |
| SplitMapper.SplitTableWellFormed | app/onboarding/workout-split/helpers.ts:10-16 | the source's table meets every condition the round trip needs |
| SplitMapper.SplitRoundTrip | app/onboarding/workout-split/helpers.ts:26-92 | for each of the five splits and either Core setting, build then infer returns that split and setting |
| SplitMapper.BuildProperties | app/onboarding/workout-split/helpers.ts:26-40 | the built list is duplicate-free, holds lower-back iff Core, and its set is the base set plus the Core groups when on |
| SplitMapper.BuildTableSplit | app/onboarding/workout-split/helpers.ts:26-40 | the same for the five source splits |
| SplitMapper.BuildUnknownSplit | app/onboarding/workout-split/helpers.ts:30-37 | an id outside the table that is no `Object.prototype` property name builds nothing, or just abs and lower-back with Core |
| SplitMapper.BuildPushWithCore | app/onboarding/workout-split/helpers.ts:14 | push with Core is chest, shoulders, triceps, abs, lower-back |
| SplitMapper.InferIgnoresLoneLowerBack | app/onboarding/workout-split/helpers.ts:58 | lower-back without abs is dropped before matching, so push plus lower-back is push with Core off |
| SplitMapper.InferBasePlusAbs | app/onboarding/workout-split/helpers.ts:73-86 | a base list plus abs but without lower-back matches no split |
| SplitMapper.NoBaseIsBasePlusAbs | app/onboarding/workout-split/helpers.ts:10-16 | in a well-formed table no base set equals another base set plus abs |
| SplitMapper.InferAbsWithoutCore | app/onboarding/workout-split/helpers.ts:73-86 | push plus abs matches nothing |
| SplitMapper.InferNoMatch | app/onboarding/workout-split/helpers.ts:88-91 | lists matching no base list infer no split |
| WorkoutModal.ToggleOption | app/onboarding/workout-split/add-workout-modal.tsx:97-106 | at most one option is selected; tapping the selected one clears, another selects only it |
| WorkoutModal.ToggleOptionTwice | app/onboarding/workout-split/add-workout-modal.tsx:97-106 | two taps on one option leave just that option if it was selected, else nothing; from nothing or from that option alone they restore the selection |
| WorkoutModal.ToggleMuscle | app/onboarding/workout-split/add-workout-modal.tsx:108-118 | the tapped muscle flips membership, every other keeps it, no duplicates appear; removing keeps the others in their order |
| WorkoutModal.ToggleMuscleTwice | app/onboarding/workout-split/add-workout-modal.tsx:108-118 | tapping a muscle twice restores the selected set, and the exact list when it was absent |
| WorkoutModal.FirstSelected | app/onboarding/workout-split/add-workout-modal.tsx:126-128 | the first option in table order whose id is selected; none exactly when no option is selected |
| WorkoutModal.BuildWorkout | app/onboarding/workout-split/add-workout-modal.tsx:120-159 | split tab: a workout iff an option is selected, named by its title with the mapped groups; other tabs: "Custom" iff muscles are selected; id is the edited id or the fresh one |
| WorkoutModal.ReplaceById | app/onboarding/workout-split/add-workout-modal.tsx:161-166 | same length; entries with the edited id become the new workout, all others stay |
| WorkoutModal.ReplaceKeepsIds | app/onboarding/workout-split/add-workout-modal.tsx:161-166 | editing keeps the list of ids in order and every other workout |
| WorkoutModal.ReplaceBySelf | app/onboarding/workout-split/add-workout-modal.tsx:161-166 | with unique ids, replacing a listed workout by itself changes nothing |
| WorkoutModal.ApplyWorkout | app/onboarding/workout-split/add-workout-modal.tsx:161-172 | nothing built leaves the list; an edit keeps the length and replaces exactly the entries with the edited id by the built workout, in place; an add appends at the end |
| WorkoutModal.HandleAdd | app/onboarding/workout-split/add-workout-modal.tsx:120-175 | no build leaves the profile as it was; otherwise only customWorkouts changes, to the applied list |
| WorkoutModal.HighlightVersusSave | app/onboarding/workout-split/add-workout-modal.tsx:120-180 | on the custom tab Add is highlighted exactly when it saves; on the split tab everything saved was highlighted, and the highlighted states that save nothing are exactly those whose first selected option is not in the table; no other tab highlights |
| WorkoutModal.CoreAloneSavesNothing | app/onboarding/workout-split/add-workout-modal.tsx:177-180 | Core on with no split highlights Add, yet Add leaves the profile unchanged |
| WorkoutModal.EditingWorkout | app/onboarding/workout-split/add-workout-modal.tsx:41-44 | no or empty workoutId means adding; a found workout is a stored one with that id |
| WorkoutModal.Prefill | app/onboarding/workout-split/add-workout-modal.tsx:56-78 | split workouts open the split tab with the inferred split (if any) and Core; custom ones open the custom tab with their muscles as a set |
| WorkoutModal.FirstSelectedSingle | app/onboarding/workout-split/add-workout-modal.tsx:126-128 | with unique option ids, selecting one option finds that option |
| WorkoutModal.EditSplitWorkoutUnchanged | app/onboarding/workout-split/add-workout-modal.tsx:56-175 | opening a saved split workout and pressing Update unchanged leaves the profile as it was |
| WorkoutModal.EditCustomWorkoutUnchanged | app/onboarding/workout-split/add-workout-modal.tsx:56-175 | the same for a saved custom workout with distinct muscles |
| CustomSplit.RemoveWorkout | app/onboarding/workout-split/custom.tsx:108-112 | keeps exactly the workouts with another id; an absent id leaves the list unchanged |
| CustomSplit.RemoveKeepsIdsUnique | app/onboarding/workout-split/custom.tsx:110 | removal keeps workout ids unique |
| CustomSplit.RemoveKeepsOrder | app/onboarding/workout-split/custom.tsx:110 | the survivors keep their relative order (the result is a subsequence) |
| CustomSplit.HandleRemove | app/onboarding/workout-split/custom.tsx:108-112 | only customWorkouts changes, to the filtered list |
| CustomSplit.RemoveLastThenAppend | app/onboarding/workout-split/custom.tsx:108-112 | removing the last workout and adding it back restores the list |
| CustomSplit.RemoveAppend | app/onboarding/workout-split/custom.tsx:110 | removal distributes over concatenation |
| CustomSplit.RemoveIdempotent | app/onboarding/workout-split/custom.tsx:110 | removing by the same id twice equals removing once |
| CustomSplit.Continue | app/onboarding/workout-split/custom.tsx:114-118 | sets workoutSplit to "custom" and nothing else |
| CustomSplit.EditTarget | app/onboarding/workout-split/custom.tsx:93-106 | the modal opens only when a stored workout has that id, and opens that workout |
| CustomSplit.RemovedCannotBeEdited | app/onboarding/workout-split/custom.tsx:93-112 | after removal no card can open a workout with that id |
| CustomSplit.FindMuscle | app/onboarding/workout-split/custom.tsx:187-190 | the first table entry with that id; none exactly when no entry has it |
| CustomSplit.MuscleName | app/onboarding/workout-split/custom.tsx:222-227 | a known muscle with a non-empty name shows that name; an unknown or unnamed one shows its raw id |
| CustomSplit.IconLetter | app/onboarding/workout-split/custom.tsx:207 | one character; "?" for an unknown muscle |
| CustomSplit.IconMatchesName | app/onboarding/workout-split/custom.tsx:186-227 | an icon shows the first letter of the label's name when the muscle has a name, else "?" while the label shows the id |
| CustomSplit.IconRow | app/onboarding/workout-split/custom.tsx:186-211 | min(6, n) icons, the i-th for the i-th muscle |
| CustomSplit.IconRowIgnoresTail | app/onboarding/workout-split/custom.tsx:186 | muscles after the sixth do not change the icon row |
| CustomSplit.Names | app/onboarding/workout-split/custom.tsx:221-228 | one name per muscle, in order |
| CustomSplit.MuscleLabelShape | app/onboarding/workout-split/custom.tsx:221-229 | empty for no muscles, the name for one, each further muscle adds ", " and its name; length is names plus two per separator |
| CustomSplit.UnknownMusclesShowIds | app/onboarding/workout-split/custom.tsx:227-229 | with no known muscles the label is the ids joined by ", " |
| CustomSplit.CardTitle | app/onboarding/workout-split/custom.tsx:164 | the name, " - Workout ", then decimal digits reading back as index + 1 |
| Profile.UpdateField | utils/onboardingContext.tsx:49-54 | the field reads the new value, every other field is unchanged |
| Profile.UpdateMultipleFields | utils/onboardingContext.tsx:56-61 | patched fields read the patch, the others are unchanged |
| Profile.ResetOnboarding | utils/onboardingContext.tsx:63-65 | the record is initialData (ten fields, age undefined) whatever came before |
| Profile.GetOnboardingData | utils/onboardingContext.tsx:67-69 | the current record, unmodified |
| Profile.SingleFieldPatch | utils/onboardingContext.tsx:49-61 | a one-field patch equals setting that field |
| Profile.LastWriteWins | utils/onboardingContext.tsx:49-54 | of two writes to one field the last one wins |
| Profile.RewriteUnchanged | utils/onboardingContext.tsx:49-54 | writing the value a field holds changes nothing |
| Profile.DistinctWritesCommute | utils/onboardingContext.tsx:49-54 | writes to distinct fields commute |
| Profile.FindWorkout | app/onboarding/workout-split/custom.tsx:94 | the first workout with that id; none exactly when no workout has it |
| Profile.FindListedWorkout | app/onboarding/workout-split/custom.tsx:94 | with unique ids, looking up a listed workout's id finds it |
| Auth.LogIn | utils/authContext.tsx:29-32 | logged in afterwards, other flags unchanged |
| Auth.LogOut | utils/authContext.tsx:34-36 | logged out afterwards, other flags unchanged |
| Auth.CompleteOnboarding | utils/authContext.tsx:38-40 | onboarding completed afterwards, other flags unchanged |
| Auth.ResetOnboarding | utils/authContext.tsx:42-44 | onboarding not completed afterwards, other flags unchanged |
| Auth.OperationsIdempotent | utils/authContext.tsx:29-44 | applying any operation twice equals applying it once |
| Auth.ShouldCreateAccountNeverChanges | utils/authContext.tsx:25 | no sequence of operations changes shouldCreateAccount |
| RootLayout.GuardFacts | app/_layout.tsx:17-38 | signup is never reachable; tabs and login never both; some screen always is |
| RootLayout.GuardsAfterAuthChanges | app/_layout.tsx:26-38 | logging in shows tabs and hides login; logging out after onboarding shows login; resetting onboarding shows onboarding |
| EquipmentHelpers.CatalogueIds | app/onboarding/training-place/equipment-helpers.ts:9 | one id per catalogue item, in order |
| EquipmentHelpers.GymTypeOf | app/onboarding/training-place/equipment-helpers.ts:11-66 | large iff "large-gym", small iff "small-gym", garage otherwise |
| EquipmentHelpers.DefaultSelections | app/onboarding/training-place/equipment-helpers.ts:6-80 | duplicate-free; large: exactly the catalogue ids not excluded; small and garage: their fixed lists |
| EquipmentHelpers.FixedListSizes | app/onboarding/training-place/equipment-helpers.ts:13-77 | 13 small-gym ids, 9 garage ids, 25 exclusions, each duplicate-free |
| EquipmentHelpers.GarageWithinSmall | app/onboarding/training-place/equipment-helpers.ts:48-77 | garage defaults are the small-gym defaults minus the fly and row machines and both cables |
| EquipmentHelpers.DefaultsAgainstCatalogue | app/onboarding/training-place/equipment-helpers.ts:9-79 | large defaults are non-excluded catalogue ids; small and garage defaults do not depend on the catalogue |
| EquipmentHelpers.ItemsWithIds | app/onboarding/training-place/equipment-helpers.ts:115 | exactly the catalogue items whose id the row lists, in catalogue order; unique ids stay unique |
| EquipmentHelpers.GroupByDisplay | app/onboarding/training-place/equipment-helpers.ts:112-121 | every group is non-empty and there are at most as many groups as rows |
| EquipmentHelpers.GroupTitlesInTableOrder | app/onboarding/training-place/equipment-helpers.ts:114-119 | group titles are a subsequence of the row titles |
| EquipmentHelpers.GroupsComeFromRows | app/onboarding/training-place/equipment-helpers.ts:114-119 | each group is a row's title with exactly that row's catalogue items |
| EquipmentHelpers.NonEmptyRowsShown | app/onboarding/training-place/equipment-helpers.ts:116-118 | every row matching some item gets a group |
| EquipmentHelpers.DistinctItemsBound | app/onboarding/training-place/equipment-helpers.ts:115 | items with distinct ids drawn from a set of ids are at most that many |
| EquipmentHelpers.GroupedIdsListed | app/onboarding/training-place/equipment-helpers.ts:88-119 | every grouped item's id is listed in the table |
| EquipmentHelpers.GroupsDisjointAndBounded | app/onboarding/training-place/equipment-helpers.ts:88-119 | with disjoint rows, no item appears in two groups and the groups hold at most the table's id count |
| EquipmentHelpers.RowDisjointFromRest | app/onboarding/training-place/equipment-helpers.ts:88-110 | the first row's ids appear in no later row |
| EquipmentHelpers.NoDupCardBound | app/onboarding/training-place/equipment-helpers.ts:88-110 | a list has at least as many entries as its set |
| EquipmentHelpers.DisplayTableFacts | app/onboarding/training-place/equipment-helpers.ts:88-121 | the seven rows are disjoint, list 18 ids, and the groups hold at most 18 items |
| EquipmentHelpers.DisplayRowsDisjoint | app/onboarding/training-place/equipment-helpers.ts:88-110 | the seven rows are pairwise disjoint |
| EquipmentHelpers.DisplayRowOfListed | app/onboarding/training-place/equipment-helpers.ts:88-110 | each listed id belongs to exactly the row that lists it |
| EquipmentScreen.ResolveGymType | app/onboarding/training-place/equipment.tsx:38-41 | a truthy parameter wins, otherwise the stored training place |
| EquipmentScreen.InitialSelection | app/onboarding/training-place/equipment.tsx:43-60 | a truthy parameter gives its defaults; else a non-empty stored list as a set; else the resolved gym's defaults |
| EquipmentScreen.SortedIds | app/onboarding/training-place/equipment.tsx:80 | the same ids with the same multiplicities, sorted, no duplicates added |
| EquipmentScreen.SeedIf | app/onboarding/training-place/equipment.tsx:86-91 | the weight field is seeded exactly when the condition holds; nothing else changes |
| EquipmentScreen.WriteSelection | app/onboarding/training-place/equipment.tsx:79-97 | the profile holds the sorted selection, the weight lists are seeded as asked, other fields unchanged |
| EquipmentScreen.ResetToDefaults | app/onboarding/training-place/equipment.tsx:75-98 | selection and profile become the gym's defaults, sorted; plates and dumbbells seeded iff in the defaults |
| EquipmentScreen.WriteInitialSelection | app/onboarding/training-place/equipment.tsx:101-121 | the current selection is written sorted; weights seeded only when selected and unset |
| EquipmentScreen.Mount | app/onboarding/training-place/equipment.tsx:37-123 | a defined parameter resets to the gym's defaults and seeds the weight list of selected plates and dumbbells; otherwise a stored selection is kept (an empty one falls back to the defaults) and only a weight list that is still undefined is seeded; every other field is unchanged |
| EquipmentScreen.EmptyParamResets | app/onboarding/training-place/equipment.tsx:43-76 | an empty parameter keeps the stored selection in the initialiser, yet the mount resets it to the defaults |
| EquipmentScreen.ToggleEquipment | app/onboarding/training-place/equipment.tsx:147-167 | the id flips, others stay, the screen stays in sync, only selectedEquipment may change |
| EquipmentScreen.ToggleAlwaysWrites | app/onboarding/training-place/equipment.tsx:155-163 | from a synced screen every toggle changes the key and writes the sorted list |
| EquipmentScreen.ToggleChangesKey | app/onboarding/training-place/equipment.tsx:149-159 | a toggle always changes the sorted list, so the "only if changed" guard never skips |
| EquipmentScreen.ToggleTwiceRestoresProfile | app/onboarding/training-place/equipment.tsx:147-167 | toggling one card twice restores the profile and the remembered key |
| EquipmentScreen.SameSetSameKey | app/onboarding/training-place/equipment.tsx:155-156 | selections with the same ids give the same sorted key |
| EquipmentScreen.FormatHalfPoundsReadsBack | app/onboarding/training-place/equipment.tsx:200 | every label reads back as the weight it was printed from: digits for whole pounds, digits and ".5" for half pounds |
| EquipmentScreen.ParseWhole | app/onboarding/training-place/equipment.tsx:200 | digits alone read back as a whole number of pounds |
| EquipmentScreen.ParseHalf | app/onboarding/training-place/equipment.tsx:200 | digits followed by ".5" read back as an odd number of half-pounds |
| EquipmentScreen.HalfPoundLabelsDistinct | app/onboarding/training-place/equipment.tsx:200 | different weights get different labels |
| EquipmentScreen.GetSelectedWeights | app/onboarding/training-place/equipment.tsx:193-207 | dumbbells: 2.5 to 20 in steps of 2.5; plates: the ten fixed labels; anything else: empty |
| EquipmentScreen.DumbbellLabels | app/onboarding/training-place/equipment.tsx:197-200 | the eight formatted dumbbell steps are the labels "2.5" to "20" |
| SearchEquipment.FilterEquipment | app/onboarding/training-place/search-equipment.tsx:92-104 | a blank query shows everything; otherwise exactly the items whose name, id or category contains the lower-cased query, in catalogue order |
| SearchEquipment.ExtendingQueryNarrows | app/onboarding/training-place/search-equipment.tsx:97-103 | a query containing another shows a subset of its matches |
| SearchEquipment.CaseInsensitive | app/onboarding/training-place/search-equipment.tsx:97 | queries equal after lower-casing show the same list |
| SearchEquipment.NameLeTotal | app/onboarding/training-place/search-equipment.tsx:122-124 | the name comparator is total |
| SearchEquipment.InCategory | app/onboarding/training-place/search-equipment.tsx:110-115 | exactly the items of that category |
| SearchEquipment.OutCategory | app/onboarding/training-place/search-equipment.tsx:110-115 | exactly the items of other categories |
| SearchEquipment.Categories | app/onboarding/training-place/search-equipment.tsx:111 | one category per item, in order |
| SearchEquipment.Group | app/onboarding/training-place/search-equipment.tsx:110-124 | a category's section holds exactly that category's items, each as often as in the input, sorted by name |
| SearchEquipment.GroupsFor | app/onboarding/training-place/search-equipment.tsx:118-125 | one section per key, in key order |
| SearchEquipment.GroupByCategory | app/onboarding/training-place/search-equipment.tsx:107-128 | distinct sorted categories, non-empty name-sorted groups, every match in its category's group and nothing else |
| SearchEquipment.SortedCategories | app/onboarding/training-place/search-equipment.tsx:119-120 | the distinct categories, sorted |
| SearchEquipment.GroupsForKeys | app/onboarding/training-place/search-equipment.tsx:107-128 | with the item categories as keys the groups have the grouping's properties |
| SearchEquipment.GroupsNonEmpty | app/onboarding/training-place/search-equipment.tsx:110-124 | a key that is some item's category gets a non-empty, name-sorted section |
| SearchEquipment.ItemsHaveGroups | app/onboarding/training-place/search-equipment.tsx:110-115 | every item lands in the section of its category |
| SearchEquipment.SplitByCategory | app/onboarding/training-place/search-equipment.tsx:110-115 | one category's items and the rest together are the items |
| SearchEquipment.OutThenIn | app/onboarding/training-place/search-equipment.tsx:110-115 | removing another category first does not change a category's items |
| SearchEquipment.GroupsIgnoreOtherCategory | app/onboarding/training-place/search-equipment.tsx:110-125 | groups for other keys ignore a category's items |
| SearchEquipment.UncoveredNone | app/onboarding/training-place/search-equipment.tsx:110-115 | when every category is a key, no item is left over |
| SearchEquipment.UncoveredAll | app/onboarding/training-place/search-equipment.tsx:110-115 | with no keys every item is left over |
| SearchEquipment.GroupsPartition | app/onboarding/training-place/search-equipment.tsx:107-128 | with distinct keys covering every category, the groups hold each item exactly as often as the input |
| SearchEquipment.KeysTail | app/onboarding/training-place/search-equipment.tsx:119-121 | the keys after the first are duplicate-free, lack the first and hold every other key |
| SearchEquipment.GroupsForTail | app/onboarding/training-place/search-equipment.tsx:119-125 | the sections are the first key's section followed by the sections of the other keys |
| SearchEquipment.GroupingIsPartition | app/onboarding/training-place/search-equipment.tsx:107-128 | the sections partition the matches: same multiset |
| SearchEquipment.CategoryTitle | app/onboarding/training-place/search-equipment.tsx:131-140 | a known category shows its display name, an unknown one itself |
| SearchEquipment.TitlesDistinct | app/onboarding/training-place/search-equipment.tsx:131-140 | distinct categories of the type get distinct titles |
| SearchEquipment.WriteBack | app/onboarding/training-place/search-equipment.tsx:79-88 | when the sorted selection equals the last one written nothing happens; otherwise the profile gets the sorted selection; the key is the sorted selection and no other field changes |
| SearchEquipment.Mount | app/onboarding/training-place/search-equipment.tsx:27-46 | the selection is the stored list as a set and the key is its sorted form; every other profile field is left as stored |
| SearchEquipment.MountWritesOnlyToDeduplicate | app/onboarding/training-place/search-equipment.tsx:39-89 | a duplicate-free stored list is not rewritten; a list with duplicates is rewritten sorted without them; no other field is touched |
| SearchEquipment.SortedDuplicates | app/onboarding/training-place/search-equipment.tsx:41 | sorting a list with duplicates keeps a duplicate |
| SearchEquipment.ToggleEquipment | app/onboarding/training-place/search-equipment.tsx:142-152 | the id flips, others stay, the screen stays in sync |
| SearchEquipment.SameToggleAsEquipmentScreen | app/onboarding/training-place/search-equipment.tsx:73-152 | a toggle here has the same effect as on the equipment screen |
| WeightPicker.InitialSelection | app/onboarding/training-place/edit-dumbbells.tsx:30-37 | a stored list, even empty, gives its set; otherwise all options |
| WeightPicker.Save | app/onboarding/training-place/edit-dumbbells.tsx:39-45 | the field holds the selection, strictly ascending, same members and length; nothing else changes |
| WeightPicker.SaveAscending | app/onboarding/training-place/edit-dumbbells.tsx:43 | an ascending selection is saved as it is |
| WeightPicker.AscendingApart | app/onboarding/training-place/edit-dumbbells.tsx:43 | in a strictly ascending list an earlier weight is smaller than a later one |
| WeightPicker.AscendingNoDup | app/onboarding/training-place/edit-dumbbells.tsx:43 | a strictly ascending list repeats no weight |
| WeightPicker.ToggleWeight | app/onboarding/training-place/edit-dumbbells.tsx:47-57 | the weight flips, others stay, no duplicates appear |
| WeightPicker.ToggleAll | app/onboarding/training-place/edit-dumbbells.tsx:59-66 | clears when the counts agree, else selects every option |
| WeightPicker.ActionsStayWithin | app/onboarding/training-place/edit-dumbbells.tsx:47-66 | both actions keep a selection of options a selection of options |
| WeightPicker.AllSelectedMeansEveryOption | app/onboarding/training-place/edit-dumbbells.tsx:68 | for a selection of options, equal counts iff every option is selected |
| WeightPicker.ToggleAllTwice | app/onboarding/training-place/edit-dumbbells.tsx:59-66 | select-all twice ends full from full and empty otherwise |
| WeightPicker.Open | app/onboarding/training-place/edit-dumbbells.tsx:30-45 | the selection is the stored set or all options, without repeats; the field then holds it strictly ascending; only the weight field changes |
| WeightPicker.SaveFixedPoint | app/onboarding/training-place/edit-dumbbells.tsx:39-45 | saving the same selection again leaves the record as the first save left it |
| WeightPicker.OpenUnstored | app/onboarding/training-place/edit-dumbbells.tsx:33-45 | with nothing stored, all options are selected and saved |
| WeightPicker.OpenEmptyStored | app/onboarding/training-place/edit-dumbbells.tsx:31-35 | a stored empty list stays empty |
| EditDumbbells.GenerateWeights | app/onboarding/training-place/edit-dumbbells.tsx:21-28 | 31 weights, 2.5 to 30 lb then 35 to 125 lb, strictly ascending |
| EditDumbbells.OptionsAscending | app/onboarding/training-place/edit-dumbbells.tsx:21-28 | the list is strictly ascending and duplicate-free |
| EditDumbbells.OpenWithoutStoredList | app/onboarding/training-place/edit-dumbbells.tsx:30-45 | with nothing stored all 31 weights are selected and saved |
| EditDumbbells.SelectAllThenDeselectAll | app/onboarding/training-place/edit-dumbbells.tsx:59-66 | from empty "select all" selects the list; from full it clears |
| EditDumbbells.CountOnlyAllSelected | app/onboarding/training-place/edit-dumbbells.tsx:60-68 | 31 stored weights off the list read as all selected |
| EditPlates.OptionsAscending | app/onboarding/training-place/edit-plates.tsx:22 | the ten plates are strictly ascending and duplicate-free |
| EditPlates.OpenWithoutStoredList | app/onboarding/training-place/edit-plates.tsx:24-39 | with nothing stored all ten plates are selected and saved |
| EditPlates.OpenWithEmptyStoredList | app/onboarding/training-place/edit-plates.tsx:24-39 | a stored empty list opens with nothing selected and stays empty |
| EditPlates.CountOnlyAllSelected | app/onboarding/training-place/edit-plates.tsx:53-62 | ten stored weights off the list read as all selected |
| Notifications.Tick | app/onboarding/notifications.tsx:76-84 | seconds stay in 0..59 and the total grows by one second |
| Notifications.TicksFromFocus | app/onboarding/notifications.tsx:72-84 | k seconds after focus the timer is 7 minutes plus k seconds, minutes 7 + k div 60, seconds k mod 60 |
| Notifications.TwoDigits | app/onboarding/notifications.tsx:93-95 | at least two digits reading back as the number; exactly two below 100 |
| Notifications.FormatTimerReadsBack | app/onboarding/notifications.tsx:92-96 | the text is minutes digits, a colon, seconds digits, each reading back; five characters below 100; no truncation above |
| Notifications.FocusShowsSevenMinutes | app/onboarding/notifications.tsx:36-37 | a fresh focus shows "07:00" |
| Notifications.SingleDigitsPadded | app/onboarding/notifications.tsx:93-95 | single digits get a leading zero |
| Notifications.Answer | app/onboarding/notifications.tsx:175-183 | notificationsEnabled records the answer; nothing else changes |
| Notifications.LastAnswerWins | app/onboarding/notifications.tsx:175-183 | a second answer replaces the first |
| Seqs.Toggle | app/onboarding/training-place/equipment.tsx:149-154 | the element flips membership, others keep it, no duplicates appear; adding appends, removing keeps the rest in order |
| Seqs.ToggleTwice | app/onboarding/training-place/equipment.tsx:149-154 | toggling an absent element on and off restores the list |
| Seqs.FilterIsSubsequence | app/onboarding/training-place/search-equipment.tsx:98-103 | filtering keeps the kept elements in their order |
| Seqs.SubsequenceReflexive | app/onboarding/training-place/search-equipment.tsx:93-94 | a list is a subsequence of itself, so the unfiltered catalogue keeps its order |
| Seqs.FromSeq | app/onboarding/workout-split/helpers.ts:36 | duplicate-free with the same members; a duplicate-free input is returned as is |
| Sorting.Sort | app/onboarding/training-place/equipment.tsx:155 | sorted under a total comparator, a permutation of the input |
| Sorting.SortedUnique | app/onboarding/training-place/equipment.tsx:155-159 | two sorted duplicate-free lists with the same members are equal |
| Sorting.SortDependsOnSetOnly | app/onboarding/training-place/equipment.tsx:155-159 | sorting duplicate-free lists with the same members gives the same list |
| Strings.LexLeTotalOrder | app/onboarding/training-place/search-equipment.tsx:119-120 | code-point order is a total order |
| Strings.Includes | app/onboarding/training-place/search-equipment.tsx:100-102 | true iff the needle occurs at some position |
| Strings.IncludesTransitive | app/onboarding/training-place/search-equipment.tsx:100-102 | a substring of a substring is a substring |
| Strings.DecimalRoundTrip | app/onboarding/notifications.tsx:93 | the decimal digits of a number read back as that number |

## Left out

- WorkoutModal.HasSelections: has no contract of its own; its properties are stated by `WorkoutModal.HighlightVersusSave` and `WorkoutModal.CoreAloneSavesNothing`.
- RootLayout.Reachable: has no contract of its own; its properties are stated by `RootLayout.GuardFacts` and `RootLayout.GuardsAfterAuthChanges`.

- Rendering, animations, navigation (`router.push`, `router.replace`), the
  search bar and the "see all" screen: they compute nothing the model
  states.
- React's effect and ref machinery: each screen's effects are modelled as
  the state changes they cause on mount and on each action; the re-sync
  effects that copy a changed stored selection back into a screen are left
  out, and React's possible double invocation of state updaters is not
  modelled.
- `Date.now()`: the id of a new workout is the parameter `freshId`.
- `getDefaultPlateWeights` and `getDefaultDumbbellWeights`: the equipment
  screen imports them from equipment-helpers.ts, which does not export them,
  so as the files stand the imported names are undefined and the calls at
  equipment.tsx:87, 90, 108 and 114 throw whenever plates or dumbbells are
  seeded; the model takes their
  results as parameters of `EquipmentScreen.Mount` instead.
- The `EQUIPMENT` catalogue and the `ADD_WORKOUT_MODAL` option and muscle
  tables are parameters (constants/equipment and the screen constants are
  not part of this model).
- Floating point: weights are exact scaled integers; the float loops of
  equipment.tsx and edit-dumbbells.tsx produce exact values for these
  steps, which the scaled loops reproduce.
- Unicode: `toLowerCase` is modelled on ASCII letters only, `trim` on ASCII
  whitespace only, `localeCompare` as code-point order, and `charAt(0)`
  (`CustomSplit.IconLetter`) as the first code point, where JavaScript
  takes the first UTF-16 code unit; the two differ for a name that starts
  beyond U+FFFF.  Dafny strings
  are sequences of code points, so `Strings.LexLe` is code-point order; it
  differs from JavaScript's UTF-16 code-unit order for characters beyond
  U+FFFF.
- JavaScript object key ordering for integer-like keys: group and category
  keys are assumed to be ordinary strings, so insertion order is kept.
- Negative timer values, which the timer never reaches.
- Lookup: an id that names an `Object.prototype` property (`SplitMapper.INHERITED_NAMES`:
  "toString", "constructor", "__proto__", ...) is treated as unknown, with
  the empty base list.  In helpers.ts:30 the lookup finds the inherited
  function or object instead; with Core off it is returned as it is, and
  with Core on the spread at helpers.ts:34 throws a TypeError.  The modal
  passes only the ids of its option table.
- BuildUnknownSplit: stated only for ids outside `SplitMapper.INHERITED_NAMES`,
  for the reason given for `Lookup`.
- SplitMapper.BuildWith and SplitMapper.BuildMuscleGroups: have no contract
  of their own; their properties are stated by `SplitMapper.BuildProperties`,
  `SplitMapper.BuildWithCore`, `SplitMapper.BuildTableSplit` and
  `SplitMapper.RoundTrip`.
- SplitMapper.InferWith and SplitMapper.InferSplitSelection: have no
  contract of their own; their properties are stated by
  `SplitMapper.InferSound`, `SplitMapper.InferSetOnly`,
  `SplitMapper.RoundTrip` and `SplitMapper.SplitRoundTrip`.
- EquipmentScreen.FormatHalfPounds: has no contract of its own; its
  properties are stated by `EquipmentScreen.FormatHalfPoundsReadsBack` and
  `EquipmentScreen.HalfPoundLabelsDistinct`.
- The weight pickers' save effect re-running: it depends on `updateField`,
  which the provider (onboardingContext.tsx:49-54) creates anew on every
  render, so each save causes a render that runs the save again without
  end.  The model takes only the first run (`WeightPicker.Open`);
  `WeightPicker.SaveFixedPoint` shows that the later runs leave the record
  unchanged.
- Notifications.FormatTimer: has no contract of its own; its properties are
  stated by `Notifications.FormatTimerReadsBack`.
- CustomSplit.MuscleLabel: has no contract of its own; its properties are
  stated by `CustomSplit.MuscleLabelShape` and `CustomSplit.UnknownMusclesShowIds`.
- The route parameters `workoutName`, `workoutType` and `muscleGroups` that
  custom.tsx passes to the modal: the modal reads only `workoutId`.
