/**
 * app/onboarding/training-place/search-equipment.tsx: the free-text filter
 * over the catalogue, grouping of the matches by category (categories in
 * code-point order, items by name), the category titles, and the selection
 * with its sorted write-back to the profile.
 */
module SearchEquipment {
  import opened Wrappers
  import opened Seqs
  import opened Sorting
  import opened Strings
  import opened Profile
  import opened EquipmentHelpers
  import EquipmentScreen

  // ---------------------------------------------------------------------------
  // Filtering.

  /** The match test of one item against an already lower-cased query. */
  predicate MatchesQuery(e: Equipment, query: string) {
    Includes(Lower(e.name), query) || Includes(Lower(e.id), query) || Includes(Lower(e.category), query)
  }

  /** `filteredEquipment`: a blank query shows the whole catalogue; otherwise
      the items whose lower-cased name, id or category contains the
      lower-cased query, in catalogue order.  The query itself is not
      trimmed before matching. */
  function FilterEquipment(catalogue: Catalogue, query: string): (r: seq<Equipment>)
    ensures IsBlank(query) ==> r == catalogue
    ensures !IsBlank(query) ==> forall e :: e in r <==> e in catalogue && MatchesQuery(e, Lower(query))
    ensures multiset(r) <= multiset(catalogue)
    ensures IsSubsequence(r, catalogue)
  {
    if IsBlank(query) then
      SubsequenceReflexive(catalogue);
      catalogue
    else
      var q := Lower(query);
      var keep := e => MatchesQuery(e, q);
      FilterIsSubsequence(catalogue, keep);
      Filter(catalogue, keep)
  }

  /** Typing more narrows the list: when the longer query contains the
      shorter one (after lower-casing), every match of the longer query is a
      match of the shorter one. */
  lemma ExtendingQueryNarrows(catalogue: Catalogue, short: string, long: string)
    requires !IsBlank(long)
    requires Includes(Lower(long), Lower(short))
    ensures forall e :: e in FilterEquipment(catalogue, long) ==> e in FilterEquipment(catalogue, short)
  {
    forall e | e in FilterEquipment(catalogue, long)
      ensures e in FilterEquipment(catalogue, short)
    {
      if !IsBlank(short) {
        var q, p := Lower(long), Lower(short);
        if Includes(Lower(e.name), q) {
          IncludesTransitive(Lower(e.name), q, p);
        } else if Includes(Lower(e.id), q) {
          IncludesTransitive(Lower(e.id), q, p);
        } else {
          IncludesTransitive(Lower(e.category), q, p);
        }
      }
    }
  }

  /** The search ignores ASCII case: queries that lower-case alike show the
      same items. */
  lemma CaseInsensitive(catalogue: Catalogue, q1: string, q2: string)
    requires !IsBlank(q1) && !IsBlank(q2) && Lower(q1) == Lower(q2)
    ensures FilterEquipment(catalogue, q1) == FilterEquipment(catalogue, q2)
  {
  }

  // ---------------------------------------------------------------------------
  // Grouping.

  /** One section of the list: a category and its items. */
  datatype CategoryGroup = CategoryGroup(category: string, items: seq<Equipment>)

  /** The `localeCompare` comparator on names. */
  predicate NameLe(a: Equipment, b: Equipment) {
    LexLe(a.name, b.name)
  }

  lemma NameLeTotal()
    ensures Total(NameLe)
  {
    forall a, b ensures NameLe(a, b) || NameLe(b, a) {
      LexLeTotalAt(a.name, b.name);
    }
  }

  /** The items of one category, in input order. */
  function InCategory(items: seq<Equipment>, category: string): (r: seq<Equipment>)
    ensures forall e :: e in r <==> e in items && e.category == category
  {
    if |items| == 0 then []
    else
      assert forall e :: e in items <==> e == items[0] || e in items[1..];
      (if items[0].category == category then [items[0]] else []) + InCategory(items[1..], category)
  }

  /** The items outside one category, in input order. */
  function OutCategory(items: seq<Equipment>, category: string): (r: seq<Equipment>)
    ensures forall e :: e in r <==> e in items && e.category != category
  {
    if |items| == 0 then []
    else
      assert forall e :: e in items <==> e == items[0] || e in items[1..];
      (if items[0].category != category then [items[0]] else []) + OutCategory(items[1..], category)
  }

  function Categories(items: seq<Equipment>): (r: seq<string>)
    ensures |r| == |items|
    ensures forall i :: 0 <= i < |items| ==> r[i] == items[i].category
  {
    seq(|items|, i requires 0 <= i < |items| => items[i].category)
  }

  /** The section of one category: its items sorted by name. */
  function Group(items: seq<Equipment>, key: string): (g: CategoryGroup)
    ensures g.category == key
    ensures forall e :: e in g.items <==> e in items && e.category == key
    ensures multiset(g.items) == multiset(InCategory(items, key))
    ensures Total(NameLe) ==> Sorted(NameLe, g.items)
  {
    CategoryGroup(key, Sort(NameLe, InCategory(items, key)))
  }

  /** One group per key, in key order. */
  function GroupsFor(items: seq<Equipment>, keys: seq<string>): (r: seq<CategoryGroup>)
    ensures |r| == |keys|
    ensures forall i :: 0 <= i < |r| ==> r[i] == Group(items, keys[i])
  {
    seq(|keys|, i requires 0 <= i < |keys| => Group(items, keys[i]))
  }

  function GroupKeys(gs: seq<CategoryGroup>): seq<string> {
    seq(|gs|, i requires 0 <= i < |gs| => gs[i].category)
  }

  /** `groupedEquipment`: the distinct categories in code-point order, each
      with its items sorted by name.  No group is empty, and there are no
      groups exactly when there are no items ("No equipment found"). */
  function GroupByCategory(items: seq<Equipment>): (r: seq<CategoryGroup>)
    ensures NoDup(GroupKeys(r)) && Sorted(LexLe, GroupKeys(r))
    ensures forall g :: g in r ==> |g.items| > 0 && Sorted(NameLe, g.items)
    ensures forall g, e :: g in r && e in g.items ==> e in items && e.category == g.category
    ensures forall e :: e in items ==> exists g :: g in r && g.category == e.category && e in g.items
    ensures |r| == 0 <==> |items| == 0
  {
    GroupsForKeys(items, SortedCategories(items));
    GroupsFor(items, SortedCategories(items))
  }

  /** `Object.keys(groups).sort()`: the distinct categories in code-point
      order. */
  function SortedCategories(items: seq<Equipment>): (r: seq<string>)
    ensures NoDup(r) && Sorted(LexLe, r)
    ensures forall c :: c in r <==> c in Categories(items)
  {
    LexLeTotal();
    Sort(LexLe, FromSeq(Categories(items)))
  }

  /** With the distinct categories of `items` as keys, every group is
      non-empty and every item has its group. */
  lemma GroupsForKeys(items: seq<Equipment>, keys: seq<string>)
    requires forall c :: c in keys <==> c in Categories(items)
    ensures GroupKeys(GroupsFor(items, keys)) == keys
    ensures forall g :: g in GroupsFor(items, keys) ==> |g.items| > 0 && Sorted(NameLe, g.items)
    ensures forall g, e :: g in GroupsFor(items, keys) && e in g.items ==> e in items && e.category == g.category
    ensures forall e :: e in items ==> exists g :: g in GroupsFor(items, keys) && g.category == e.category && e in g.items
    ensures |GroupsFor(items, keys)| == 0 <==> |items| == 0
  {
    var r := GroupsFor(items, keys);
    GroupsNonEmpty(items, keys);
    forall g, e | g in r && e in g.items ensures e in items && e.category == g.category {
      var i :| 0 <= i < |r| && r[i] == g;
    }
    ItemsHaveGroups(items, keys);
    if |items| > 0 {
      assert Categories(items)[0] in keys;
    }
    if |keys| > 0 {
      assert keys[0] in Categories(items);
    }
  }

  /** A key that is some item's category gets a non-empty, name-sorted section. */
  lemma GroupsNonEmpty(items: seq<Equipment>, keys: seq<string>)
    requires forall c :: c in keys ==> c in Categories(items)
    ensures forall g :: g in GroupsFor(items, keys) ==> |g.items| > 0 && Sorted(NameLe, g.items)
  {
    NameLeTotal();
    var r := GroupsFor(items, keys);
    forall g | g in r ensures |g.items| > 0 {
      var i :| 0 <= i < |r| && r[i] == g;
      assert keys[i] in Categories(items);
      var j :| 0 <= j < |items| && Categories(items)[j] == keys[i];
      assert items[j] in g.items;
    }
  }

  /** When every item's category is a key, every item is in that key's section. */
  lemma ItemsHaveGroups(items: seq<Equipment>, keys: seq<string>)
    requires forall c :: c in Categories(items) ==> c in keys
    ensures forall e :: e in items ==> exists g :: g in GroupsFor(items, keys) && g.category == e.category && e in g.items
  {
    var r := GroupsFor(items, keys);
    forall e | e in items ensures exists g :: g in r && g.category == e.category && e in g.items {
      var j :| 0 <= j < |items| && items[j] == e;
      assert e.category == Categories(items)[j];
      assert e.category in keys;
      var i :| 0 <= i < |keys| && keys[i] == e.category;
      var g := Group(items, keys[i]);
      assert r[i] == g && g.category == e.category && e in g.items;
      assert g in r;
    }
  }

  /** The items of all groups, one group after another. */
  function Flatten(gs: seq<CategoryGroup>): seq<Equipment> {
    if |gs| == 0 then [] else gs[0].items + Flatten(gs[1..])
  }

  lemma {:induction false} SplitByCategory(items: seq<Equipment>, category: string)
    ensures multiset(InCategory(items, category)) + multiset(OutCategory(items, category)) == multiset(items)
  {
    if |items| > 0 {
      SplitByCategory(items[1..], category);
      assert items == [items[0]] + items[1..];
    }
  }

  lemma {:induction false} OutThenIn(items: seq<Equipment>, c1: string, c2: string)
    requires c1 != c2
    ensures InCategory(OutCategory(items, c1), c2) == InCategory(items, c2)
  {
    if |items| > 0 {
      OutThenIn(items[1..], c1, c2);
      var out := OutCategory(items, c1);
      if items[0].category != c1 {
        assert out[1..] == OutCategory(items[1..], c1);
      } else {
        assert out == OutCategory(items[1..], c1);
      }
    }
  }

  /** Groups for keys a category is not among do not depend on that
      category's items. */
  lemma GroupsIgnoreOtherCategory(items: seq<Equipment>, keys: seq<string>, c: string)
    requires c !in keys
    ensures GroupsFor(OutCategory(items, c), keys) == GroupsFor(items, keys)
  {
    forall i | 0 <= i < |keys| ensures Group(OutCategory(items, c), keys[i]) == Group(items, keys[i]) {
      OutThenIn(items, c, keys[i]);
    }
  }

  /** The items whose category is not among `keys`. */
  function Uncovered(items: seq<Equipment>, keys: seq<string>): seq<Equipment> {
    if |items| == 0 then []
    else (if items[0].category in keys then [] else [items[0]]) + Uncovered(items[1..], keys)
  }

  lemma {:induction false} UncoveredNone(items: seq<Equipment>, keys: seq<string>)
    requires forall e :: e in items ==> e.category in keys
    ensures Uncovered(items, keys) == []
  {
    if |items| > 0 {
      assert items[0] in items;
      UncoveredNone(items[1..], keys);
    }
  }

  lemma {:induction false} UncoveredAll(items: seq<Equipment>, keys: seq<string>)
    requires |keys| == 0
    ensures Uncovered(items, keys) == items
  {
    if |items| > 0 {
      UncoveredAll(items[1..], keys);
    }
  }

  lemma {:induction false} GroupsPartition(items: seq<Equipment>, keys: seq<string>)
    requires NoDup(keys)
    requires forall e :: e in items ==> e.category in keys
    ensures multiset(Flatten(GroupsFor(items, keys))) == multiset(items)
    decreases |keys|
  {
    if |keys| > 0 {
      var rest := OutCategory(items, keys[0]);
      var tail := keys[1..];
      KeysTail(keys);
      forall e | e in rest ensures e.category in tail {
        assert e.category in keys && e.category != keys[0];
      }
      GroupsPartition(rest, tail);
      GroupsIgnoreOtherCategory(items, tail, keys[0]);
      SplitByCategory(items, keys[0]);
      GroupsForTail(items, keys);
    } else {
      UncoveredNone(items, keys);
      UncoveredAll(items, keys);
    }
  }

  /** The tail of duplicate-free keys is duplicate-free, lacks the head, and
      holds every other key. */
  lemma KeysTail(keys: seq<string>)
    requires NoDup(keys) && |keys| > 0
    ensures NoDup(keys[1..]) && keys[0] !in keys[1..]
    ensures forall c :: c in keys && c != keys[0] ==> c in keys[1..]
  {
    var tail := keys[1..];
    forall i, j | 0 <= i < j < |tail| ensures tail[i] != tail[j] {
      assert tail[i] == keys[i + 1] && tail[j] == keys[j + 1];
    }
    forall i | 0 <= i < |tail| ensures tail[i] != keys[0] {
      assert tail[i] == keys[i + 1];
    }
    forall c | c in keys && c != keys[0] ensures c in tail {
      var i :| 0 <= i < |keys| && keys[i] == c;
      assert tail[i - 1] == c;
    }
  }

  /** The sections for keys are the head key's section followed by the
      sections for the other keys. */
  lemma GroupsForTail(items: seq<Equipment>, keys: seq<string>)
    requires |keys| > 0
    ensures Flatten(GroupsFor(items, keys)) == Group(items, keys[0]).items + Flatten(GroupsFor(items, keys[1..]))
  {
    var gs := GroupsFor(items, keys);
    assert gs[1..] == GroupsFor(items, keys[1..]) by {
      forall i | 0 <= i < |keys| - 1 ensures gs[1..][i] == GroupsFor(items, keys[1..])[i] {
        assert keys[1..][i] == keys[i + 1];
      }
    }
  }

  /** The sections partition the matches: every match is shown exactly as
      often as it occurs, in the section of its category. */
  lemma GroupingIsPartition(items: seq<Equipment>)
    ensures multiset(Flatten(GroupByCategory(items))) == multiset(items)
  {
    var keys := Sort(LexLe, FromSeq(Categories(items)));
    forall e | e in items ensures e.category in keys {
      var j :| 0 <= j < |items| && items[j] == e;
      assert Categories(items)[j] == e.category;
    }
    GroupsPartition(items, keys);
  }

  // ---------------------------------------------------------------------------
  // Titles.

  const CATEGORY_DISPLAY_NAMES: map<string, string> := map[
    "machine" := "Weight Machines",
    "plateLoaded" := "Plated Machines",
    "benchRack" := "Benches and Racks",
    "cable" := "Cable Machines",
    "freeWeight" := "Free Weights",
    "functional" := "Functional Training",
    "bandAccessory" := "Bands & Accessories",
    "cardio" := "Cardio Equipment"
  ]

  /** The eight values of `EquipmentCategory`. */
  const EQUIPMENT_CATEGORIES := ["machine", "plateLoaded", "benchRack", "cable",
                                 "freeWeight", "functional", "bandAccessory", "cardio"]

  /** `categoryDisplayNames[category] || category`: the display name when
      there is one, the raw category otherwise. */
  function CategoryTitle(category: string): (r: string)
    ensures category in EQUIPMENT_CATEGORIES ==> r == CATEGORY_DISPLAY_NAMES[category]
    ensures category !in CATEGORY_DISPLAY_NAMES ==> r == category
    ensures r != ""  || category == ""
  {
    if category in CATEGORY_DISPLAY_NAMES && CATEGORY_DISPLAY_NAMES[category] != "" then CATEGORY_DISPLAY_NAMES[category]
    else category
  }

  /** Every category of the type has a display name, and distinct categories
      get distinct titles. */
  lemma TitlesDistinct(c1: string, c2: string)
    requires c1 in EQUIPMENT_CATEGORIES && c2 in EQUIPMENT_CATEGORIES && c1 != c2
    ensures CategoryTitle(c1) != CategoryTitle(c2)
  {
  }

  // ---------------------------------------------------------------------------
  // Selection.

  /** The screen's state is the equipment screen's: the selection, the last
      sorted list written (`prevLocalSelectionsRef`) and the profile. */
  type SearchState = EquipmentScreen.ScreenState

  /** The write-back effect: write the sorted selection when it differs from
      the last one written. */
  function WriteBack(st: SearchState): (r: SearchState)
    ensures r.selection == st.selection
    ensures r.lastKey == Some(EquipmentScreen.SortedIds(st.selection))
    ensures st.lastKey == Some(EquipmentScreen.SortedIds(st.selection)) ==> r == st
    ensures st.lastKey != Some(EquipmentScreen.SortedIds(st.selection)) ==>
      Get(r.profile, SELECTED_EQUIPMENT) == StrList(EquipmentScreen.SortedIds(st.selection))
    ensures forall f :: f != SELECTED_EQUIPMENT ==> Get(r.profile, f) == Get(st.profile, f)
  {
    var sorted := EquipmentScreen.SortedIds(st.selection);
    if st.lastKey != Some(sorted) then
      EquipmentScreen.ScreenState(st.selection, Some(sorted), UpdateField(st.profile, SELECTED_EQUIPMENT, StrList(sorted)))
    else st
  }

  /** Mounting: the selection is the stored list as a set, the refs hold the
      stored list sorted, and the first write-back effect runs. */
  function Mount(data: Record): (r: SearchState)
    ensures forall id :: id in r.selection <==> id in SelectedEquipment(data)
    ensures NoDup(r.selection)
    ensures r.lastKey == Some(EquipmentScreen.SortedIds(r.selection))
    ensures forall f :: f != SELECTED_EQUIPMENT ==> Get(r.profile, f) == Get(data, f)
  {
    var stored := SelectedEquipment(data);
    WriteBack(EquipmentScreen.ScreenState(FromSeq(stored), Some(EquipmentScreen.SortedIds(stored)), data))
  }

  /** Mounting over a duplicate-free stored list writes nothing; a stored
      list with duplicates is rewritten without them. */
  lemma MountWritesOnlyToDeduplicate(data: Record)
    ensures NoDup(SelectedEquipment(data)) ==> Mount(data).profile == data
    ensures !NoDup(SelectedEquipment(data)) ==>
      Get(Mount(data).profile, SELECTED_EQUIPMENT) == StrList(EquipmentScreen.SortedIds(FromSeq(SelectedEquipment(data))))
    ensures forall f :: f != SELECTED_EQUIPMENT ==> Get(Mount(data).profile, f) == Get(data, f)
  {
    var stored := SelectedEquipment(data);
    if !NoDup(stored) {
      assert EquipmentScreen.SortedIds(stored) != EquipmentScreen.SortedIds(FromSeq(stored)) by {
        assert NoDup(EquipmentScreen.SortedIds(FromSeq(stored)));
        SortedDuplicates(stored);
      }
    }
  }

  /** Sorting keeps duplicates. */
  lemma SortedDuplicates(s: seq<string>)
    requires !NoDup(s)
    ensures !NoDup(EquipmentScreen.SortedIds(s))
  {
    var i, j :| 0 <= i < j < |s| && s[i] == s[j];
    RepeatCountsTwice(s, i, j);
    var r := EquipmentScreen.SortedIds(s);
    assert multiset(r)[s[i]] >= 2;
    if NoDup(r) {
      NoDupAtMostOnce(r, s[i]);
    }
  }

  /** `handleToggleEquipment` followed by the write-back effect. */
  function ToggleEquipment(st: SearchState, id: string): (r: SearchState)
    ensures id in r.selection <==> id !in st.selection
    ensures forall x :: x != id ==> (x in r.selection <==> x in st.selection)
    ensures EquipmentScreen.Synced(st) ==> EquipmentScreen.Synced(r)
  {
    WriteBack(EquipmentScreen.ScreenState(Toggle(st.selection, id), st.lastKey, st.profile))
  }

  /** Toggling here and toggling on the equipment screen have the same
      effect on the screen state and the profile. */
  lemma SameToggleAsEquipmentScreen(st: SearchState, id: string)
    ensures ToggleEquipment(st, id) == EquipmentScreen.ToggleEquipment(st, id)
  {
  }
}
