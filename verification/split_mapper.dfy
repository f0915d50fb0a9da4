/**
 * The workout-split <-> muscle-group mapper of
 * app/onboarding/workout-split/helpers.ts.
 *
 * Forward: a split id and the Core toggle give a muscle-group list.
 * Inverse: a stored muscle-group list gives back the split id it matches
 * as a set (if any) and whether Core was on.
 *
 * Both directions are defined over an arbitrary split table, so that the
 * round-trip law can be proved from the properties of the table that make it
 * hold (`WellFormed`); `SPLIT_TABLE` is the source's table and is shown to
 * have them.
 */
module SplitMapper {
  import opened Wrappers
  import opened Seqs

  const ABS := "abs"
  const LOWER_BACK := "lower-back"

  /** One entry of `WORKOUT_SPLIT_MUSCLE_GROUP_MAP`: a split id and its base muscle groups. */
  datatype SplitEntry = SplitEntry(id: string, muscles: seq<string>)

  /** `Object.entries(WORKOUT_SPLIT_MUSCLE_GROUP_MAP)`, in insertion order. */
  type SplitTable = seq<SplitEntry>

  const SPLIT_TABLE: SplitTable := [
    SplitEntry("full-body", ["chest", "back", "shoulders", "hamstrings", "quads", "abs"]),
    SplitEntry("upper-body", ["chest", "back", "shoulders", "biceps", "triceps"]),
    SplitEntry("legs", ["hamstrings", "quads", "calves", "glutes"]),
    SplitEntry("push", ["chest", "shoulders", "triceps"]),
    SplitEntry("pull", ["back", "biceps"])
  ]

  /** The names every JavaScript object inherits from `Object.prototype`.
      Indexing the map with one of them finds the inherited member instead
      of `undefined`, which the model does not follow (see `Lookup`). */
  const INHERITED_NAMES: set<string> := {
    "constructor", "__proto__", "toString", "toLocaleString", "valueOf", "hasOwnProperty",
    "isPrototypeOf", "propertyIsEnumerable", "__defineGetter__", "__defineSetter__",
    "__lookupGetter__", "__lookupSetter__"
  }

  /** The result of the inverse mapping: `{ splitId?, coreEnabled }`. */
  datatype Inference = Inference(splitId: Option<string>, coreEnabled: bool)

  /** The ids of a table, in table order.  `EquipmentHelpers.CatalogueIds`
      is the same projection over catalogue items; the two record types are
      unrelated, so each module keeps its own. */
  function Ids(t: SplitTable): (r: seq<string>)
    ensures |r| == |t|
    ensures forall i :: 0 <= i < |t| ==> r[i] == t[i].id
  {
    seq(|t|, i requires 0 <= i < |t| => t[i].id)
  }

  /** `MAP[splitId] || []`: the base list of the entry with that id, or
      empty.  An id in `INHERITED_NAMES` is treated as unknown here. */
  function Lookup(t: SplitTable, splitId: string): (r: seq<string>)
    ensures splitId !in Ids(t) ==> r == []
    ensures forall k :: 0 <= k < |t| && t[k].id == splitId && (forall j :: 0 <= j < k ==> t[j].id != splitId) ==> r == t[k].muscles
  {
    if |t| == 0 then []
    else if t[0].id == splitId then t[0].muscles
    else
      assert Ids(t) == [t[0].id] + Ids(t[1..]);
      assert forall k :: 0 < k < |t| ==> t[k] == t[1..][k - 1];
      Lookup(t[1..], splitId)
  }

  /** `buildMuscleGroupsFromSplitSelection` over table `t`. */
  function BuildWith(t: SplitTable, splitId: string, coreEnabled: bool): seq<string> {
    var base := Lookup(t, splitId);
    if coreEnabled then FromSeq(base + [ABS, LOWER_BACK]) else base
  }

  /** `buildMuscleGroupsFromSplitSelection`, over the source's table. */
  function BuildMuscleGroups(splitId: string, coreEnabled: bool): seq<string> {
    BuildWith(SPLIT_TABLE, splitId, coreEnabled)
  }

  /** The match test of the source: every base group is among `toMatch`, and
      the base list is as long as the set of `toMatch`. */
  predicate MatchesBase(base: seq<string>, toMatch: seq<string>) {
    (forall g :: g in base ==> g in toMatch) && |base| == |FromSeq(toMatch)|
  }

  /** `Object.entries(MAP).find(...)`: the id of the first entry whose base
      list matches `toMatch`. */
  function FindMatch(t: SplitTable, toMatch: seq<string>): (r: Option<string>)
    ensures r.None? <==> forall k :: 0 <= k < |t| ==> !MatchesBase(t[k].muscles, toMatch)
    ensures r.Some? ==> exists k :: 0 <= k < |t| && t[k].id == r.value && MatchesBase(t[k].muscles, toMatch)
  {
    if |t| == 0 then None
    else if MatchesBase(t[0].muscles, toMatch) then Some(t[0].id)
    else
      assert forall k :: 0 < k < |t| ==> t[k] == t[1..][k - 1];
      var r := FindMatch(t[1..], toMatch);
      assert r.Some? ==> exists k :: 0 < k < |t| && t[k].id == r.value && MatchesBase(t[k].muscles, toMatch) by {
        if r.Some? {
          var k :| 0 <= k < |t[1..]| && t[1..][k].id == r.value && MatchesBase(t[1..][k].muscles, toMatch);
          assert t[k + 1] == t[1..][k];
        }
      }
      r
  }

  predicate NotLowerBack(mg: string) {
    mg != LOWER_BACK
  }

  predicate NotAbs(mg: string) {
    mg != ABS
  }

  /** `muscleGroups.filter((mg) => mg !== "lower-back")` */
  function StripLowerBack(muscleGroups: seq<string>): (r: seq<string>)
    ensures ToSet(r) == ToSet(muscleGroups) - {LOWER_BACK}
  {
    Filter(muscleGroups, NotLowerBack)
  }

  /** `groupsToMatch.filter((mg) => mg !== "abs")` */
  function StripAbs(groups: seq<string>): (r: seq<string>)
    ensures ToSet(r) == ToSet(groups) - {ABS}
  {
    Filter(groups, NotAbs)
  }

  /** `inferSplitSelectionFromMuscleGroups` over table `t`. */
  function InferWith(t: SplitTable, muscleGroups: seq<string>): Inference {
    var coreEnabled := ABS in muscleGroups && LOWER_BACK in muscleGroups;
    var groupsToMatch := StripLowerBack(muscleGroups);
    var first := FindMatch(t, groupsToMatch);
    if first.None? && coreEnabled then
      Inference(FindMatch(t, StripAbs(groupsToMatch)), coreEnabled)
    else
      Inference(first, coreEnabled)
  }

  /** `inferSplitSelectionFromMuscleGroups`, over the source's table. */
  function InferSplitSelection(muscleGroups: seq<string>): Inference {
    InferWith(SPLIT_TABLE, muscleGroups)
  }

  // ---------------------------------------------------------------------------
  // Properties of a table that make the inverse mapping invert the forward one.

  /** Ids are unique, base lists are duplicate-free and never hold
      `lower-back`, base lists are distinct as sets, and adding `abs` to a base
      list without it never gives another base list. */
  ghost predicate WellFormed(t: SplitTable) {
    && (forall i, j :: 0 <= i < j < |t| ==> t[i].id != t[j].id)
    && (forall i :: 0 <= i < |t| ==> NoDup(t[i].muscles) && LOWER_BACK !in t[i].muscles)
    && (forall i, j :: 0 <= i < j < |t| ==> ToSet(t[i].muscles) != ToSet(t[j].muscles))
    && (forall i, j :: 0 <= i < |t| && 0 <= j < |t| && ABS !in t[i].muscles ==>
          ToSet(t[j].muscles) != ToSet(t[i].muscles) + {ABS})
  }

  /** For a duplicate-free base list the source's match test is set equality. */
  lemma MatchesIsSetEquality(base: seq<string>, toMatch: seq<string>)
    requires NoDup(base)
    ensures MatchesBase(base, toMatch) <==> ToSet(base) == ToSet(toMatch)
  {
    var f := FromSeq(toMatch);
    NoDupCard(base);
    NoDupCard(f);
    assert ToSet(f) == ToSet(toMatch);
    var a, b := ToSet(base), ToSet(toMatch);
    if a <= b && |base| == |f| {
      assert b == a + (b - a) && a !! (b - a);
      assert |b - a| == 0;
      assert b - a == {};
    }
  }

  /** The match test only looks at the set of `toMatch`. */
  lemma MatchesSetOnly(base: seq<string>, a: seq<string>, b: seq<string>)
    requires ToSet(a) == ToSet(b)
    ensures MatchesBase(base, a) <==> MatchesBase(base, b)
  {
    NoDupCard(FromSeq(a));
    NoDupCard(FromSeq(b));
    assert ToSet(FromSeq(a)) == ToSet(FromSeq(b));
  }

  /** The search only looks at the set of `toMatch`. */
  lemma {:induction false} FindMatchSetOnly(t: SplitTable, a: seq<string>, b: seq<string>)
    requires ToSet(a) == ToSet(b)
    ensures FindMatch(t, a) == FindMatch(t, b)
  {
    if |t| > 0 {
      MatchesSetOnly(t[0].muscles, a, b);
      FindMatchSetOnly(t[1..], a, b);
    }
  }

  /** When exactly entry `k` has the set of `toMatch`, the search finds it. */
  lemma {:induction false} FindMatchFinds(t: SplitTable, toMatch: seq<string>, k: nat)
    requires k < |t|
    requires forall i :: 0 <= i < |t| ==> NoDup(t[i].muscles)
    requires ToSet(t[k].muscles) == ToSet(toMatch)
    requires forall i :: 0 <= i < |t| && i != k ==> ToSet(t[i].muscles) != ToSet(toMatch)
    ensures FindMatch(t, toMatch) == Some(t[k].id)
  {
    MatchesIsSetEquality(t[0].muscles, toMatch);
    if k > 0 {
      assert forall i :: 0 <= i < |t[1..]| ==> t[1..][i] == t[i + 1];
      FindMatchFinds(t[1..], toMatch, k - 1);
    }
  }

  /** When no entry has the set of `toMatch`, the search finds nothing. */
  lemma FindMatchMisses(t: SplitTable, toMatch: seq<string>)
    requires forall i :: 0 <= i < |t| ==> NoDup(t[i].muscles)
    requires forall i :: 0 <= i < |t| ==> ToSet(t[i].muscles) != ToSet(toMatch)
    ensures FindMatch(t, toMatch) == None
  {
    forall i | 0 <= i < |t| ensures !MatchesBase(t[i].muscles, toMatch) {
      MatchesIsSetEquality(t[i].muscles, toMatch);
    }
  }

  /** In a well-formed table at most one entry matches a given list. */
  lemma AtMostOneMatch(t: SplitTable, toMatch: seq<string>, i: nat, j: nat)
    requires WellFormed(t) && i < |t| && j < |t|
    requires MatchesBase(t[i].muscles, toMatch) && MatchesBase(t[j].muscles, toMatch)
    ensures i == j
  {
    MatchesIsSetEquality(t[i].muscles, toMatch);
    MatchesIsSetEquality(t[j].muscles, toMatch);
  }

  /** Looking up the id of entry `k` of a table with unique ids gives entry `k`. */
  lemma LookupEntry(t: SplitTable, k: nat)
    requires k < |t|
    requires forall i, j :: 0 <= i < j < |t| ==> t[i].id != t[j].id
    ensures Lookup(t, t[k].id) == t[k].muscles
  {
  }

  /** With Core on, the built list is the base list followed by `abs` (when
      the base lacks it) and then `lower-back`: first occurrences are kept. */
  lemma BuildWithCore(t: SplitTable, splitId: string)
    requires NoDup(Lookup(t, splitId)) && LOWER_BACK !in Lookup(t, splitId)
    ensures BuildWith(t, splitId, true) ==
      Lookup(t, splitId) + (if ABS in Lookup(t, splitId) then [] else [ABS]) + [LOWER_BACK]
  {
    AddCoreGroups(Lookup(t, splitId));
  }

  /** De-duplicating a base list followed by the Core groups. */
  lemma {:induction false} AddCoreGroups(base: seq<string>)
    requires NoDup(base) && LOWER_BACK !in base
    ensures FromSeq(base + [ABS, LOWER_BACK]) == base + (if ABS in base then [] else [ABS]) + [LOWER_BACK]
  {
    assert ABS != LOWER_BACK;
    assert base + [ABS, LOWER_BACK] == (base + [ABS]) + [LOWER_BACK];
    FromSeqSnoc(base + [ABS], LOWER_BACK);
    FromSeqSnoc(base, ABS);
    assert FromSeq(base) == base;
    var withAbs := Add(base, ABS);
    assert FromSeq(base + [ABS]) == withAbs;
    assert LOWER_BACK !in withAbs;
    assert FromSeq(base + [ABS, LOWER_BACK]) == withAbs + [LOWER_BACK];
  }

  /** Without Core, the base list of entry `k` is recognised as entry `k`. */
  lemma RoundTripWithoutCore(t: SplitTable, k: nat)
    requires WellFormed(t) && k < |t|
    ensures InferWith(t, t[k].muscles) == Inference(Some(t[k].id), false)
  {
    var base := t[k].muscles;
    assert LOWER_BACK !in base;
    var g1 := StripLowerBack(base);
    assert ToSet(g1) == ToSet(base);
    FindMatchFinds(t, g1, k);
  }

  /** With Core, the base list of entry `k` plus the Core groups is
      recognised as entry `k` with Core on: on the first search when the base
      already has `abs`, on the abs-stripped retry otherwise. */
  lemma RoundTripWithCore(t: SplitTable, k: nat)
    requires WellFormed(t) && k < |t|
    ensures InferWith(t, FromSeq(t[k].muscles + [ABS, LOWER_BACK])) == Inference(Some(t[k].id), true)
  {
    var base := t[k].muscles;
    var built := FromSeq(base + [ABS, LOWER_BACK]);
    assert ToSet(built) == ToSet(base) + {ABS, LOWER_BACK};
    assert ABS in built && LOWER_BACK in built;
    var g1 := StripLowerBack(built);
    assert ToSet(g1) == ToSet(base) + {ABS};
    if ABS in base {
      assert ToSet(g1) == ToSet(base);
      FindMatchFinds(t, g1, k);
    } else {
      assert forall i :: 0 <= i < |t| ==> ToSet(t[i].muscles) != ToSet(base) + {ABS};
      FindMatchMisses(t, g1);
      var g2 := StripAbs(g1);
      assert ToSet(g2) == ToSet(base);
      FindMatchFinds(t, g2, k);
    }
  }

  /** The round trip: inferring from the list built for entry `k` with Core
      toggle `c` gives back entry `k`'s id and `c`. */
  lemma RoundTrip(t: SplitTable, k: nat, c: bool)
    requires WellFormed(t) && k < |t|
    ensures InferWith(t, BuildWith(t, t[k].id, c)) == Inference(Some(t[k].id), c)
  {
    LookupEntry(t, k);
    if c {
      RoundTripWithCore(t, k);
    } else {
      RoundTripWithoutCore(t, k);
    }
  }

  /** The inverse mapping depends only on the set of its input: order and
      repetitions are irrelevant. */
  lemma InferSetOnly(t: SplitTable, a: seq<string>, b: seq<string>)
    requires ToSet(a) == ToSet(b)
    ensures InferWith(t, a) == InferWith(t, b)
  {
    var fa := StripLowerBack(a);
    var fb := StripLowerBack(b);
    FindMatchSetOnly(t, fa, fb);
    FindMatchSetOnly(t, StripAbs(fa), StripAbs(fb));
  }

  /** What an inferred split id means: the input without `lower-back` is the
      split's base set, or, with Core detected, the base set plus `abs`. */
  lemma InferSound(t: SplitTable, muscleGroups: seq<string>)
    requires forall i :: 0 <= i < |t| ==> NoDup(t[i].muscles)
    ensures InferWith(t, muscleGroups).coreEnabled <==> ABS in muscleGroups && LOWER_BACK in muscleGroups
    ensures InferWith(t, muscleGroups).splitId.Some? ==>
      exists k :: 0 <= k < |t| && t[k].id == InferWith(t, muscleGroups).splitId.value &&
        (ToSet(t[k].muscles) == ToSet(muscleGroups) - {LOWER_BACK} ||
         (InferWith(t, muscleGroups).coreEnabled && ToSet(t[k].muscles) == ToSet(muscleGroups) - {LOWER_BACK, ABS}))
  {
    var r := InferWith(t, muscleGroups);
    var g1 := StripLowerBack(muscleGroups);
    var g2 := StripAbs(g1);
    assert ToSet(g2) == ToSet(muscleGroups) - {LOWER_BACK, ABS};
    if r.splitId.Some? {
      if FindMatch(t, g1).Some? {
        var k :| 0 <= k < |t| && t[k].id == r.splitId.value && MatchesBase(t[k].muscles, g1);
        MatchesIsSetEquality(t[k].muscles, g1);
      } else {
        var k :| 0 <= k < |t| && t[k].id == r.splitId.value && MatchesBase(t[k].muscles, g2);
        MatchesIsSetEquality(t[k].muscles, g2);
      }
    }
  }

  /** The abs-stripping retry happens only with Core detected: without it
      the answer is the first search's. */
  lemma NoRetryWithoutCore(t: SplitTable, muscleGroups: seq<string>)
    requires !(ABS in muscleGroups && LOWER_BACK in muscleGroups)
    ensures InferWith(t, muscleGroups) ==
      Inference(FindMatch(t, StripLowerBack(muscleGroups)), false)
  {
  }

  // ---------------------------------------------------------------------------
  // The source's table.

  /** The base lists of `SPLIT_TABLE` are duplicate-free and lack `lower-back`. */
  lemma SplitTableBasesClean()
    ensures forall i :: 0 <= i < |SPLIT_TABLE| ==> NoDup(SPLIT_TABLE[i].muscles) && LOWER_BACK !in SPLIT_TABLE[i].muscles
  {
    var t := SPLIT_TABLE;
    assert NoDup(t[0].muscles) && NoDup(t[1].muscles) && NoDup(t[2].muscles);
    assert NoDup(t[3].muscles) && NoDup(t[4].muscles);
  }

  /** A muscle group that tells two base lists apart. */
  lemma Separates(a: seq<string>, b: seq<string>, x: string)
    requires (x in a && x !in b) || (x !in a && x in b)
    ensures ToSet(a) != ToSet(b)
  {
    assert x in ToSet(a) <==> x in a;
  }

  /** The base lists of `SPLIT_TABLE` are distinct as sets. */
  lemma SplitTableBasesDistinct()
    ensures forall i, j :: 0 <= i < j < |SPLIT_TABLE| ==> ToSet(SPLIT_TABLE[i].muscles) != ToSet(SPLIT_TABLE[j].muscles)
  {
    var t := SPLIT_TABLE;
    Separates(t[0].muscles, t[1].muscles, "quads");
    Separates(t[0].muscles, t[2].muscles, "chest");
    Separates(t[0].muscles, t[3].muscles, "quads");
    Separates(t[0].muscles, t[4].muscles, "quads");
    Separates(t[1].muscles, t[2].muscles, "chest");
    Separates(t[1].muscles, t[3].muscles, "back");
    Separates(t[1].muscles, t[4].muscles, "chest");
    Separates(t[2].muscles, t[3].muscles, "quads");
    Separates(t[2].muscles, t[4].muscles, "quads");
    Separates(t[3].muscles, t[4].muscles, "chest");
  }

  /** Adding `abs` to a base list of `SPLIT_TABLE` without it gives no base list. */
  lemma SplitTableAbsUnambiguous()
    ensures forall i, j :: 0 <= i < |SPLIT_TABLE| && 0 <= j < |SPLIT_TABLE| && ABS !in SPLIT_TABLE[i].muscles ==>
      ToSet(SPLIT_TABLE[j].muscles) != ToSet(SPLIT_TABLE[i].muscles) + {ABS}
  {
    var t := SPLIT_TABLE;
    forall i, j | 0 <= i < 5 && 0 <= j < 5 && ABS !in t[i].muscles
      ensures ToSet(t[j].muscles) != ToSet(t[i].muscles) + {ABS}
    {
      var plus := t[i].muscles + [ABS];
      assert ToSet(plus) == ToSet(t[i].muscles) + {ABS};
      if j == 0 {
        assert i != 0;
        if i == 1 { Separates(t[j].muscles, plus, "quads"); }
        else if i == 2 { Separates(t[j].muscles, plus, "chest"); }
        else { Separates(t[j].muscles, plus, "quads"); }
      } else {
        Separates(t[j].muscles, plus, ABS);
      }
    }
  }

  /** The ids of `SPLIT_TABLE` are unique. */
  lemma SplitTableIdsUnique()
    ensures forall i, j :: 0 <= i < j < |SPLIT_TABLE| ==> SPLIT_TABLE[i].id != SPLIT_TABLE[j].id
  {
    assert Ids(SPLIT_TABLE) == SPLIT_IDS;
    assert NoDup(SPLIT_IDS);
  }

  /** `SPLIT_TABLE` has every property the round trip needs. */
  lemma SplitTableWellFormed()
    ensures WellFormed(SPLIT_TABLE)
  {
    SplitTableIdsUnique();
    SplitTableBasesClean();
    SplitTableBasesDistinct();
    SplitTableAbsUnambiguous();
  }

  /** The split ids of the source's table. */
  const SPLIT_IDS := ["full-body", "upper-body", "legs", "push", "pull"]

  /** For each of the five splits and each Core setting, editing a saved
      split workout recovers the split and the Core toggle. */
  lemma SplitRoundTrip(splitId: string, coreEnabled: bool)
    requires splitId in SPLIT_IDS
    ensures InferSplitSelection(BuildMuscleGroups(splitId, coreEnabled)) == Inference(Some(splitId), coreEnabled)
  {
    SplitTableWellFormed();
    var k :| 0 <= k < 5 && SPLIT_IDS[k] == splitId;
    assert SPLIT_TABLE[k].id == splitId;
    RoundTrip(SPLIT_TABLE, k, coreEnabled);
  }

  /** For a clean base list, the built list is duplicate-free, holds
      `lower-back` exactly when Core is on, and adds exactly the Core groups. */
  lemma BuildProperties(t: SplitTable, splitId: string, coreEnabled: bool)
    requires NoDup(Lookup(t, splitId)) && LOWER_BACK !in Lookup(t, splitId)
    ensures NoDup(BuildWith(t, splitId, coreEnabled))
    ensures LOWER_BACK in BuildWith(t, splitId, coreEnabled) <==> coreEnabled
    ensures ToSet(BuildWith(t, splitId, coreEnabled)) ==
      ToSet(Lookup(t, splitId)) + (if coreEnabled then {ABS, LOWER_BACK} else {})
  {
  }

  /** For the source's splits, the built list is duplicate-free and contains
      `lower-back` exactly when Core is on. */
  lemma BuildTableSplit(splitId: string, coreEnabled: bool)
    requires splitId in SPLIT_IDS
    ensures NoDup(BuildMuscleGroups(splitId, coreEnabled))
    ensures LOWER_BACK in BuildMuscleGroups(splitId, coreEnabled) <==> coreEnabled
    ensures ToSet(BuildMuscleGroups(splitId, coreEnabled)) ==
      ToSet(Lookup(SPLIT_TABLE, splitId)) + (if coreEnabled then {ABS, LOWER_BACK} else {})
  {
    SplitTableIdsUnique();
    SplitTableBasesClean();
    var k :| 0 <= k < 5 && SPLIT_IDS[k] == splitId;
    assert SPLIT_TABLE[k].id == splitId;
    LookupEntry(SPLIT_TABLE, k);
    BuildProperties(SPLIT_TABLE, splitId, coreEnabled);
  }

  /** An unknown split id that is no inherited property name builds
      nothing, or just the Core groups. */
  lemma BuildUnknownSplit(splitId: string, coreEnabled: bool)
    requires splitId !in SPLIT_IDS && splitId !in INHERITED_NAMES
    ensures BuildMuscleGroups(splitId, coreEnabled) == if coreEnabled then [ABS, LOWER_BACK] else []
  {
    assert Ids(SPLIT_TABLE) == SPLIT_IDS;
    if coreEnabled {
      AddCoreGroups([]);
    }
  }

  /** Push with Core gives chest, shoulders, triceps, abs, lower-back. */
  lemma BuildPushWithCore()
    ensures BuildMuscleGroups("push", true) == ["chest", "shoulders", "triceps", "abs", "lower-back"]
  {
    SplitTableIdsUnique();
    LookupEntry(SPLIT_TABLE, 3);
    var base := Lookup(SPLIT_TABLE, "push");
    assert base == ["chest", "shoulders", "triceps"];
    assert NoDup(base) && LOWER_BACK !in base && ABS !in base;
    BuildWithCore(SPLIT_TABLE, "push");
  }

  /** A lone `lower-back` without `abs` is ignored when matching. */
  lemma InferIgnoresLoneLowerBack()
    ensures InferSplitSelection(["chest", "shoulders", "triceps", "lower-back"]) == Inference(Some("push"), false)
  {
    SplitTableBasesClean();
    SplitTableBasesDistinct();
    var base := SPLIT_TABLE[3].muscles;
    var input := ["chest", "shoulders", "triceps", "lower-back"];
    assert input == base + [LOWER_BACK];
    assert ABS !in input;
    FilterAppend(base, [LOWER_BACK], NotLowerBack);
    FilterKeepsAll(base, NotLowerBack);
    var g := StripLowerBack(input);
    assert g == base;
    FindMatchFinds(SPLIT_TABLE, g, 3);
  }

  /** `abs` without `lower-back` is not Core, so it is never stripped: a
      base list lacking `abs`, with `abs` added, matches no split. */
  lemma InferBasePlusAbs(t: SplitTable, k: nat)
    requires WellFormed(t) && k < |t| && ABS !in t[k].muscles
    ensures InferWith(t, t[k].muscles + [ABS]) == Inference(None, false)
  {
    var input := t[k].muscles + [ABS];
    assert LOWER_BACK !in input;
    FilterKeepsAll(input, NotLowerBack);
    assert StripLowerBack(input) == input;
    NoBaseIsBasePlusAbs(t, k);
    FindMatchMisses(t, input);
  }

  lemma NoBaseIsBasePlusAbs(t: SplitTable, k: nat)
    requires WellFormed(t) && k < |t| && ABS !in t[k].muscles
    ensures forall i :: 0 <= i < |t| ==> NoDup(t[i].muscles)
    ensures forall i :: 0 <= i < |t| ==> ToSet(t[i].muscles) != ToSet(t[k].muscles + [ABS])
  {
    assert ToSet(t[k].muscles + [ABS]) == ToSet(t[k].muscles) + {ABS};
  }

  /** Push plus `abs`, without `lower-back`, matches nothing. */
  lemma InferAbsWithoutCore()
    ensures InferSplitSelection(["chest", "shoulders", "triceps", "abs"]) == Inference(None, false)
  {
    SplitTableWellFormed();
    assert ["chest", "shoulders", "triceps", "abs"] == SPLIT_TABLE[3].muscles + [ABS];
    InferBasePlusAbs(SPLIT_TABLE, 3);
  }

  /** Lists matching no split infer no split id. */
  lemma InferNoMatch()
    ensures InferSplitSelection(["forearms"]) == Inference(None, false)
    ensures InferSplitSelection([]).splitId == None
  {
    SplitTableBasesClean();
    var t := SPLIT_TABLE;
    assert forall i :: 0 <= i < |t| ==> "forearms" !in t[i].muscles;
    assert forall i :: 0 <= i < |t| ==> t[i].muscles[0] in ToSet(t[i].muscles);
    var f := StripLowerBack(["forearms"]);
    assert ToSet(f) == {"forearms"};
    FindMatchMisses(t, f);
    var e := StripLowerBack([]);
    assert ToSet(e) == {};
    FindMatchMisses(t, e);
  }
}
