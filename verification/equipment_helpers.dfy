/**
 * The equipment catalogue shape (constants/equipment/types.ts) and the two
 * pure helpers of app/onboarding/training-place/equipment-helpers.ts:
 * default selections per gym type and grouping for display.
 *
 * The catalogue `EQUIPMENT` is a parameter of the model.
 */
module EquipmentHelpers {
  import opened Wrappers
  import opened Seqs

  /** One catalogue item.  `category` is one of the eight category names of
      types.ts in the catalogue; it is a string because the screens treat it
      as one (lower-casing it, sorting it, looking it up). */
  datatype Equipment = Equipment(id: string, name: string, category: string, iconKey: Option<string>)

  type Catalogue = seq<Equipment>

  /** Catalogue ids are unique. */
  predicate UniqueIds(c: Catalogue) {
    forall i, j :: 0 <= i < j < |c| ==> c[i].id != c[j].id
  }

  /** `EQUIPMENT.map((eq) => eq.id)`: the ids in catalogue order. */
  function CatalogueIds(c: Catalogue): (r: seq<string>)
    ensures |r| == |c|
    ensures forall i :: 0 <= i < |c| ==> r[i] == c[i].id
  {
    seq(|c|, i requires 0 <= i < |c| => c[i].id)
  }

  datatype GymType = LargeGym | SmallGym | GarageGym

  /** The comparisons of `getDefaultEquipmentSelections`: anything that is
      not "large-gym" or "small-gym", `undefined` included, is a garage gym. */
  function GymTypeOf(name: Option<string>): (g: GymType)
    ensures g == LargeGym <==> name == Some("large-gym")
    ensures g == SmallGym <==> name == Some("small-gym")
  {
    if name == Some("large-gym") then LargeGym
    else if name == Some("small-gym") then SmallGym
    else GarageGym
  }

  /** The ids a large gym is assumed not to have. */
  const LARGE_GYM_EXCLUDED := [
    "hack_squat_machine_selectorized", "multi_hip_machine", "bent_arm_fly_machine",
    "sissy_squat_machine", "sled", "skipping_rope", "plate_loaded_chest_supported_t_bar",
    "plate_loaded_ab_crunch", "plate_loaded_chest_supported_row", "plate_loaded_hip_thrust_belt",
    "plate_loaded_standing_lateral_raise", "plate_loaded_pullover", "plate_loaded_standing_leg_curl",
    "vertical_leg_press", "belt_squat_machine", "plate_loaded_dip_machine", "mini_bands",
    "air_bike", "stationary_bike", "elliptical", "rowing_machine_cardio", "stair_stepper",
    "treadmill", "vertical_climber", "ski_erg"
  ]

  const SMALL_GYM_IDS := [
    "ab_wheel", "stability_ball", "fly_machine", "row_machine", "olympic_barbell", "plates",
    "crossover_cable", "hi_lo_pull_cable", "dumbbells", "flat_bench", "incline_bench",
    "pull_up_bar", "squat_rack"
  ]

  const GARAGE_GYM_IDS := [
    "ab_wheel", "stability_ball", "olympic_barbell", "plates", "dumbbells", "flat_bench",
    "incline_bench", "pull_up_bar", "squat_rack"
  ]

  predicate NotExcluded(id: string) {
    id !in LARGE_GYM_EXCLUDED
  }

  /** `getDefaultEquipmentSelections(gymType)`, as the insertion-ordered set
      the source returns. */
  function DefaultSelections(gym: GymType, catalogue: Catalogue): (r: seq<string>)
    ensures NoDup(r)
    ensures gym == LargeGym ==>
      forall id :: id in r <==> id in CatalogueIds(catalogue) && id !in LARGE_GYM_EXCLUDED
    ensures gym == SmallGym ==> r == SMALL_GYM_IDS
    ensures gym == GarageGym ==> r == GARAGE_GYM_IDS
  {
    match gym
    case LargeGym => Filter(FromSeq(CatalogueIds(catalogue)), NotExcluded)
    case SmallGym =>
      assert NoDup(SMALL_GYM_IDS);
      FromSeq(SMALL_GYM_IDS)
    case GarageGym =>
      assert NoDup(GARAGE_GYM_IDS);
      FromSeq(GARAGE_GYM_IDS)
  }

  /** The fixed lists have the sizes the source states, and the exclusion
      list has 25 distinct ids. */
  lemma FixedListSizes()
    ensures |SMALL_GYM_IDS| == 13 && NoDup(SMALL_GYM_IDS)
    ensures |GARAGE_GYM_IDS| == 9 && NoDup(GARAGE_GYM_IDS)
    ensures |LARGE_GYM_EXCLUDED| == 25 && NoDup(LARGE_GYM_EXCLUDED)
  {
  }

  /** Garage-gym defaults are small-gym defaults minus exactly the two
      machines and two cables. */
  lemma GarageWithinSmall()
    ensures ToSet(GARAGE_GYM_IDS) <= ToSet(SMALL_GYM_IDS)
    ensures ToSet(SMALL_GYM_IDS) - ToSet(GARAGE_GYM_IDS) ==
      {"fly_machine", "row_machine", "crossover_cable", "hi_lo_pull_cable"}
  {
  }

  /** Large-gym defaults are catalogue ids, none of them excluded; small and
      garage defaults do not depend on the catalogue at all. */
  lemma DefaultsAgainstCatalogue(c1: Catalogue, c2: Catalogue)
    ensures forall id :: id in DefaultSelections(LargeGym, c1) ==> id in CatalogueIds(c1)
    ensures forall id :: id in DefaultSelections(LargeGym, c1) ==> id !in LARGE_GYM_EXCLUDED
    ensures DefaultSelections(SmallGym, c1) == DefaultSelections(SmallGym, c2)
    ensures DefaultSelections(GarageGym, c1) == DefaultSelections(GarageGym, c2)
  {
  }

  // ---------------------------------------------------------------------------
  // Display grouping.

  /** One row of the `equipmentByCategory` table: a title and its ids. */
  datatype DisplayCategory = DisplayCategory(title: string, ids: seq<string>)

  /** One output group: `{ title, equipment }`. */
  datatype DisplayGroup = DisplayGroup(title: string, equipment: seq<Equipment>)

  const DISPLAY_TABLE: seq<DisplayCategory> := [
    DisplayCategory("Cable machines", ["crossover_cable", "hi_lo_pull_cable"]),
    DisplayCategory("Small weights", ["dumbbells"]),
    DisplayCategory("Benches and racks", ["flat_bench", "incline_bench", "pull_up_bar", "squat_rack"]),
    DisplayCategory("Plated machines", ["plate_loaded_hack_squat", "plate_loaded_iso_lateral_row", "plate_loaded_shoulder_machine"]),
    DisplayCategory("Weight machines", ["row_machine", "assisted_weight_machine", "bicep_curl_machine", "fly_machine"]),
    DisplayCategory("Balls and accessories", ["ab_wheel", "stability_ball"]),
    DisplayCategory("Bars and plates", ["olympic_barbell", "plates"])
  ]

  /** `EQUIPMENT.filter((eq) => equipmentIds.includes(eq.id))` */
  function ItemsWithIds(catalogue: Catalogue, ids: seq<string>): (r: seq<Equipment>)
    ensures forall e :: e in r <==> e in catalogue && e.id in ids
    ensures UniqueIds(catalogue) ==> UniqueIds(r)
    ensures IsSubsequence(r, catalogue)
  {
    if |catalogue| == 0 then []
    else
      var rest := ItemsWithIds(catalogue[1..], ids);
      assert forall e :: e in catalogue <==> e == catalogue[0] || e in catalogue[1..];
      if catalogue[0].id in ids then
        assert UniqueIds(catalogue) ==> UniqueIds([catalogue[0]] + rest) by {
          if UniqueIds(catalogue) {
            assert UniqueIds(catalogue[1..]);
            ConsUniqueIds(catalogue, rest);
          }
        }
        assert ([catalogue[0]] + rest)[1..] == rest;
        [catalogue[0]] + rest
      else
        SubsequenceOfTail(rest, catalogue[1..], catalogue[0]);
        assert [catalogue[0]] + catalogue[1..] == catalogue;
        rest
  }

  /** Putting the head of a catalogue with unique ids in front of items
      drawn from its tail keeps the ids unique. */
  lemma ConsUniqueIds(catalogue: Catalogue, rest: seq<Equipment>)
    requires |catalogue| > 0 && UniqueIds(catalogue) && UniqueIds(rest)
    requires forall e :: e in rest ==> e in catalogue[1..]
    ensures UniqueIds([catalogue[0]] + rest)
  {
    var r := [catalogue[0]] + rest;
    forall j | 0 < j < |r| ensures r[0].id != r[j].id {
      assert r[j] == rest[j - 1] && rest[j - 1] in rest;
      assert r[j] in catalogue[1..];
      var k :| 0 <= k < |catalogue[1..]| && catalogue[1..][k] == r[j];
      assert catalogue[k + 1] == r[j];
    }
  }

  /** `groupEquipmentByDisplayCategory()` over a display table: one group per
      table row, in table order, dropping empty ones. */
  function GroupByDisplay(table: seq<DisplayCategory>, catalogue: Catalogue): (r: seq<DisplayGroup>)
    ensures forall g :: g in r ==> |g.equipment| > 0
    ensures |r| <= |table|
  {
    if |table| == 0 then []
    else
      var items := ItemsWithIds(catalogue, table[0].ids);
      var rest := GroupByDisplay(table[1..], catalogue);
      if |items| > 0 then [DisplayGroup(table[0].title, items)] + rest else rest
  }

  function Titles(gs: seq<DisplayGroup>): seq<string> {
    seq(|gs|, i requires 0 <= i < |gs| => gs[i].title)
  }

  function TableTitles(table: seq<DisplayCategory>): seq<string> {
    seq(|table|, i requires 0 <= i < |table| => table[i].title)
  }

  /** The titles of the groups keep the table's order, with the empty rows
      left out. */
  lemma {:induction false} GroupTitlesInTableOrder(table: seq<DisplayCategory>, catalogue: Catalogue)
    ensures IsSubsequence(Titles(GroupByDisplay(table, catalogue)), TableTitles(table))
  {
    if |table| > 0 {
      GroupTitlesInTableOrder(table[1..], catalogue);
      var rest := GroupByDisplay(table[1..], catalogue);
      var tt := TableTitles(table);
      assert tt[0] == table[0].title;
      assert tt[1..] == TableTitles(table[1..]);
      if |ItemsWithIds(catalogue, table[0].ids)| > 0 {
        var ts := Titles(GroupByDisplay(table, catalogue));
        assert ts[0] == table[0].title;
        assert ts[1..] == Titles(rest);
      } else {
        SubsequenceOfTail(Titles(rest), TableTitles(table[1..]), table[0].title);
        assert [table[0].title] + TableTitles(table[1..]) == tt;
      }
    }
  }

  /** Each group holds exactly the catalogue entries its row lists, in
      catalogue order. */
  lemma {:induction false} GroupsComeFromRows(table: seq<DisplayCategory>, catalogue: Catalogue)
    ensures forall g :: g in GroupByDisplay(table, catalogue) ==>
      exists j :: 0 <= j < |table| && table[j].title == g.title && g.equipment == ItemsWithIds(catalogue, table[j].ids)
  {
    if |table| > 0 {
      GroupsComeFromRows(table[1..], catalogue);
      forall g | g in GroupByDisplay(table[1..], catalogue)
        ensures exists j :: 0 <= j < |table| && table[j].title == g.title && g.equipment == ItemsWithIds(catalogue, table[j].ids)
      {
        var j :| 0 <= j < |table[1..]| && table[1..][j].title == g.title && g.equipment == ItemsWithIds(catalogue, table[1..][j].ids);
        assert table[j + 1] == table[1..][j];
      }
    }
  }

  /** Every row that matches some catalogue entry gets a group. */
  lemma {:induction false} NonEmptyRowsShown(table: seq<DisplayCategory>, catalogue: Catalogue)
    ensures forall j :: 0 <= j < |table| && |ItemsWithIds(catalogue, table[j].ids)| > 0 ==>
      DisplayGroup(table[j].title, ItemsWithIds(catalogue, table[j].ids)) in GroupByDisplay(table, catalogue)
  {
    if |table| > 0 {
      NonEmptyRowsShown(table[1..], catalogue);
      assert forall j :: 0 < j < |table| ==> table[j] == table[1..][j - 1];
    }
  }

  /** All ids a table lists. */
  function TableIds(table: seq<DisplayCategory>): set<string> {
    if |table| == 0 then {} else ToSet(table[0].ids) + TableIds(table[1..])
  }

  /** The sum of the lengths of a table's id lists. */
  function TableSize(table: seq<DisplayCategory>): nat {
    if |table| == 0 then 0 else |table[0].ids| + TableSize(table[1..])
  }

  /** The rows' id lists are pairwise disjoint. */
  predicate RowsDisjoint(table: seq<DisplayCategory>) {
    forall i, j :: 0 <= i < j < |table| ==> ToSet(table[i].ids) !! ToSet(table[j].ids)
  }

  function TotalItems(gs: seq<DisplayGroup>): nat {
    if |gs| == 0 then 0 else |gs[0].equipment| + TotalItems(gs[1..])
  }

  /** Items with distinct ids all drawn from `ids` are at most `|ids|` many. */
  lemma {:induction false} DistinctItemsBound(items: seq<Equipment>, ids: set<string>)
    requires UniqueIds(items)
    requires forall e :: e in items ==> e.id in ids
    ensures |items| <= |ids|
  {
    if |items| > 0 {
      var rest := items[1..];
      assert forall e :: e in rest ==> e.id != items[0].id;
      DistinctItemsBound(rest, ids - {items[0].id});
    }
  }

  /** Every grouped item is listed somewhere in the table. */
  lemma {:induction false} GroupedIdsListed(table: seq<DisplayCategory>, catalogue: Catalogue)
    ensures forall g, e :: g in GroupByDisplay(table, catalogue) && e in g.equipment ==> e.id in TableIds(table)
  {
    if |table| > 0 {
      GroupedIdsListed(table[1..], catalogue);
    }
  }

  /** With pairwise-disjoint rows and unique catalogue ids, no item is in two
      groups, and the groups hold at most as many items as the table lists. */
  lemma {:induction false} GroupsDisjointAndBounded(table: seq<DisplayCategory>, catalogue: Catalogue)
    requires RowsDisjoint(table) && UniqueIds(catalogue)
    ensures var r := GroupByDisplay(table, catalogue);
      forall i, j, e :: 0 <= i < j < |r| && e in r[i].equipment ==> e !in r[j].equipment
    ensures TotalItems(GroupByDisplay(table, catalogue)) <= TableSize(table)
  {
    if |table| > 0 {
      var tail := table[1..];
      assert RowsDisjoint(tail) by {
        assert forall i :: 0 <= i < |tail| ==> tail[i] == table[i + 1];
      }
      GroupsDisjointAndBounded(tail, catalogue);
      GroupedIdsListed(tail, catalogue);
      RowDisjointFromRest(table);
      var items := ItemsWithIds(catalogue, table[0].ids);
      DistinctItemsBound(items, ToSet(table[0].ids));
      NoDupCardBound(table[0].ids);
      var r := GroupByDisplay(table, catalogue);
      var rest := GroupByDisplay(tail, catalogue);
      if |items| > 0 {
        assert r == [DisplayGroup(table[0].title, items)] + rest;
        assert r[1..] == rest;
        forall i, j, e | 0 <= i < j < |r| && e in r[i].equipment ensures e !in r[j].equipment {
          if i == 0 {
            assert e.id in ToSet(table[0].ids);
            assert r[j] in rest;
          } else {
            assert r[i] == rest[i - 1] && r[j] == rest[j - 1];
          }
        }
      }
    }
  }

  /** The first row's ids are listed in no later row. */
  lemma {:induction false} RowDisjointFromRest(table: seq<DisplayCategory>)
    requires |table| > 0 && RowsDisjoint(table)
    ensures ToSet(table[0].ids) !! TableIds(table[1..])
    decreases |table|
  {
    if |table| > 1 {
      var t' := [table[0]] + table[2..];
      assert RowsDisjoint(t') by {
        assert forall i :: 1 <= i < |t'| ==> t'[i] == table[i + 1];
      }
      RowDisjointFromRest(t');
      assert t'[1..] == table[2..];
      assert table[1..][1..] == table[2..];
      assert ToSet(table[0].ids) !! ToSet(table[1].ids);
    }
  }

  /** A list has at least as many entries as its set. */
  lemma {:induction false} NoDupCardBound(s: seq<string>)
    ensures |ToSet(s)| <= |s|
  {
    if |s| > 0 {
      NoDupCardBound(s[1..]);
      assert ToSet(s) == ToSet(s[1..]) + {s[0]};
    }
  }

  /** The source's seven rows are disjoint and list 18 ids in all, so at most
      18 catalogue items are shown. */
  lemma DisplayTableFacts(catalogue: Catalogue)
    requires UniqueIds(catalogue)
    ensures RowsDisjoint(DISPLAY_TABLE)
    ensures TableSize(DISPLAY_TABLE) == 18
    ensures TotalItems(GroupByDisplay(DISPLAY_TABLE, catalogue)) <= 18
  {
    assert TableSize(DISPLAY_TABLE) == 18;
    DisplayRowsDisjoint();
    GroupsDisjointAndBounded(DISPLAY_TABLE, catalogue);
  }

  lemma DisplayRowsDisjoint()
    ensures RowsDisjoint(DISPLAY_TABLE)
  {
    forall i, j | 0 <= i < j < |DISPLAY_TABLE| ensures ToSet(DISPLAY_TABLE[i].ids) !! ToSet(DISPLAY_TABLE[j].ids) {
      forall x | x in ToSet(DISPLAY_TABLE[i].ids) ensures x !in ToSet(DISPLAY_TABLE[j].ids) {
        DisplayRowOfListed(i, x);
        if x in DISPLAY_TABLE[j].ids {
          DisplayRowOfListed(j, x);
        }
      }
    }
  }

  /** The row of `DISPLAY_TABLE` that lists an id, -1 for none. */
  function DisplayRow(id: string): int {
    match id
    case "crossover_cable" => 0
    case "hi_lo_pull_cable" => 0
    case "dumbbells" => 1
    case "flat_bench" => 2
    case "incline_bench" => 2
    case "pull_up_bar" => 2
    case "squat_rack" => 2
    case "plate_loaded_hack_squat" => 3
    case "plate_loaded_iso_lateral_row" => 3
    case "plate_loaded_shoulder_machine" => 3
    case "row_machine" => 4
    case "assisted_weight_machine" => 4
    case "bicep_curl_machine" => 4
    case "fly_machine" => 4
    case "ab_wheel" => 5
    case "stability_ball" => 5
    case "olympic_barbell" => 6
    case "plates" => 6
    case _ => -1
  }

  lemma DisplayRowOfListed(i: nat, x: string)
    requires i < |DISPLAY_TABLE| && x in DISPLAY_TABLE[i].ids
    ensures DisplayRow(x) == i
  {
    var ids := DISPLAY_TABLE[i].ids;
    var k :| 0 <= k < |ids| && ids[k] == x;
  }
}
