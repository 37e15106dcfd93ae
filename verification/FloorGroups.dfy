/** Areas grouped by floor, as the floor-plan manager lists them (`groupAreasByFloor` in floor-plan-manager.tsx). */
module FloorGroups {
  import opened Options
  import opened Sequences
  import opened Sorting

  const MAX_SAFE_INTEGER := 9_007_199_254_740_991
  const NO_FLOOR := "no-floor"

  datatype Floor = Floor(id: string, name: string, sortOrder: int)

  datatype Area = Area(id: string, name: string, inspectionOrder: int, floor: Option<Floor>)

  datatype Group = Group(key: string, title: string, sortOrder: int, areas: seq<Area>)

  /** `localeCompare(...) <= 0`: any total preorder on names will do. */
  type Locale = (string, string) -> bool

  function KeyOf(area: Area): string {
    if area.floor.Some? then area.floor.value.id else NO_FLOOR
  }

  /** The group an area opens when its floor has none yet. */
  function OpenedBy(area: Area): Group {
    Group(KeyOf(area),
          if area.floor.Some? then area.floor.value.name else "No floor",
          if area.floor.Some? then area.floor.value.sortOrder else MAX_SAFE_INTEGER,
          [area])
  }

  function OnFloor(key: string): Area -> bool {
    (area: Area) => KeyOf(area) == key
  }

  function AreaOrder(locale: Locale): (Area, Area) -> bool {
    (a: Area, b: Area) => a.inspectionOrder < b.inspectionOrder
                          || (a.inspectionOrder == b.inspectionOrder && locale(a.name, b.name))
  }

  function GroupOrder(locale: Locale): (Group, Group) -> bool {
    (g: Group, h: Group) => g.sortOrder < h.sortOrder || (g.sortOrder == h.sortOrder && locale(g.title, h.title))
  }

  lemma OrdersArePreorders(locale: Locale)
    requires TotalPreorder(locale)
    ensures TotalPreorder(AreaOrder(locale)) && TotalPreorder(GroupOrder(locale))
  {
    var areas, groups := AreaOrder(locale), GroupOrder(locale);
    forall a, b ensures areas(a, b) || areas(b, a) {
      assert locale(a.name, b.name) || locale(b.name, a.name);
    }
    forall a, b, c | areas(a, b) && areas(b, c) ensures areas(a, c) {
      assert locale(a.name, b.name) && locale(b.name, c.name) ==> locale(a.name, c.name);
    }
    forall g, h ensures groups(g, h) || groups(h, g) {
      assert locale(g.title, h.title) || locale(h.title, g.title);
    }
    forall g, h, k | groups(g, h) && groups(h, k) ensures groups(g, k) {
      assert locale(g.title, h.title) && locale(h.title, k.title) ==> locale(g.title, k.title);
    }
  }

  // ----- Specification

  /** The group of one floor: every area of it in list order, labelled by the first. */
  function FloorOf(areas: seq<Area>, key: string): Group
    requires |Filter(areas, OnFloor(key))| > 0
  {
    OpenedBy(Filter(areas, OnFloor(key))[0]).(areas := Filter(areas, OnFloor(key)))
  }

  /** The floors in order of first appearance. */
  function FloorKeys(areas: seq<Area>): seq<string> {
    if |areas| == 0 then []
    else
      var before, key := FloorKeys(areas[..|areas| - 1]), KeyOf(areas[|areas| - 1]);
      if key in before then before else before + [key]
  }

  lemma {:induction false} FloorKeysDistinct(areas: seq<Area>)
    ensures Distinct(FloorKeys(areas))
  {
    if |areas| == 0 {
    } else {
      FloorKeysDistinct(areas[..|areas| - 1]);
    }
  }

  lemma {:induction false} FloorIsInhabited(areas: seq<Area>, key: string)
    ensures key in FloorKeys(areas) <==> |Filter(areas, OnFloor(key))| > 0
  {
    if |areas| == 0 {
    } else {
      var front, last := areas[..|areas| - 1], areas[|areas| - 1];
      assert areas == front + [last];
      FloorIsInhabited(front, key);
      FilterAppend(front, [last], OnFloor(key));
      var before := FloorKeys(front);
      if KeyOf(last) == key {
        assert Filter([last], OnFloor(key)) == [last];
        assert key in before + [key];
      } else {
        assert Filter([last], OnFloor(key)) == [];
        assert key in before + [KeyOf(last)] <==> key in before;
      }
    }
  }

  lemma FloorIsListed(areas: seq<Area>, area: Area)
    requires area in areas
    ensures KeyOf(area) in FloorKeys(areas)
  {
    assert area in Filter(areas, OnFloor(KeyOf(area)));
    FloorIsInhabited(areas, KeyOf(area));
  }

  function Floors(areas: seq<Area>, keys: seq<string>): (groups: seq<Group>)
    requires forall key :: key in keys ==> |Filter(areas, OnFloor(key))| > 0
    ensures |groups| == |keys|
    ensures forall i :: 0 <= i < |keys| ==> groups[i] == FloorOf(areas, keys[i])
  {
    seq(|keys|, i requires 0 <= i < |keys| => FloorOf(areas, keys[i]))
  }

  function SortAreas(groups: seq<Group>, locale: Locale): (sorted: seq<Group>)
    ensures |sorted| == |groups|
    ensures forall i :: 0 <= i < |groups| ==>
            sorted[i] == groups[i].(areas := StableSort(groups[i].areas, AreaOrder(locale)))
  {
    seq(|groups|, i requires 0 <= i < |groups| => groups[i].(areas := StableSort(groups[i].areas, AreaOrder(locale))))
  }

  function Ungrouped(areas: seq<Area>): seq<Group> {
    assert forall key :: key in FloorKeys(areas) ==> |Filter(areas, OnFloor(key))| > 0 by {
      forall key | key in FloorKeys(areas) ensures |Filter(areas, OnFloor(key))| > 0 {
        FloorIsInhabited(areas, key);
      }
    }
    Floors(areas, FloorKeys(areas))
  }

  function GroupedByFloor(areas: seq<Area>, locale: Locale): seq<Group> {
    SortAreas(StableSort(Ungrouped(areas), GroupOrder(locale)), locale)
  }

  // ----- The algorithm

  /** The `Map` after some areas: a group per floor so far, and the keys in insertion order. */
  ghost predicate Filled(groups: map<string, Group>, keys: seq<string>, areas: seq<Area>) {
    && keys == FloorKeys(areas)
    && (forall key :: key in groups <==> key in keys)
    && (forall key :: HoldsFloor(groups, areas, key))
  }

  ghost predicate HoldsFloor(groups: map<string, Group>, areas: seq<Area>, key: string) {
    key in groups ==> |Filter(areas, OnFloor(key))| > 0 && groups[key] == FloorOf(areas, key)
  }

  method FillByFloor(areas: seq<Area>) returns (groups: map<string, Group>, keys: seq<string>)
    ensures Filled(groups, keys, areas)
  {
    groups, keys := map[], [];
    for i := 0 to |areas|
      invariant Filled(groups, keys, areas[..i])
    {
      var area := areas[i];
      var key := KeyOf(area);
      FilledGrows(groups, keys, areas[..i], area);
      assert areas[..i + 1] == areas[..i] + [area];
      ghost var next := Appended(groups, area);
      if key in groups {
        groups := groups[key := groups[key].(areas := groups[key].areas + [area])];
      } else {
        groups := groups[key := OpenedBy(area)];
        keys := keys + [key];
      }
      assert groups == next;
    }
    assert areas[..|areas|] == areas;
  }

  method GroupAreasByFloor(areas: seq<Area>, locale: Locale) returns (result: seq<Group>)
    ensures result == GroupedByFloor(areas, locale)
  {
    var groups, keys := FillByFloor(areas);
    var values := seq(|keys|, k requires 0 <= k < |keys| => groups[keys[k]]);
    ValuesAreTheFloors(groups, keys, areas, values);
    var sorted := StableSort(values, GroupOrder(locale));
    result := SortAreas(sorted, locale);
  }

  lemma ValuesAreTheFloors(groups: map<string, Group>, keys: seq<string>, areas: seq<Area>, values: seq<Group>)
    requires Filled(groups, keys, areas)
    requires |values| == |keys| && forall k :: 0 <= k < |keys| ==> values[k] == groups[keys[k]]
    ensures values == Ungrouped(areas)
  {
    forall k | 0 <= k < |keys| ensures |Filter(areas, OnFloor(keys[k]))| > 0 && values[k] == FloorOf(areas, keys[k]) {
      assert HoldsFloor(groups, areas, keys[k]);
    }
  }

  /** One more area: its own floor gains it at the end, or opens with it, and no other floor changes. */
  lemma FloorGrows(areas: seq<Area>, area: Area, key: string)
    ensures var here, now := Filter(areas, OnFloor(key)), Filter(areas + [area], OnFloor(key));
            && (KeyOf(area) != key ==> now == here)
            && (KeyOf(area) == key ==>
                  && |now| > 0
                  && FloorOf(areas + [area], key)
                     == (if |here| > 0 then FloorOf(areas, key).(areas := here + [area]) else OpenedBy(area)))
  {
    FilterAppend(areas, [area], OnFloor(key));
  }

  function Appended(groups: map<string, Group>, area: Area): map<string, Group> {
    var key := KeyOf(area);
    if key in groups then groups[key := groups[key].(areas := groups[key].areas + [area])]
    else groups[key := OpenedBy(area)]
  }

  lemma FloorStaysHeld(groups: map<string, Group>, areas: seq<Area>, area: Area, key: string)
    requires HoldsFloor(groups, areas, key)
    requires KeyOf(area) !in groups ==> |Filter(areas, OnFloor(KeyOf(area)))| == 0
    ensures HoldsFloor(Appended(groups, area), areas + [area], key)
  {
    FloorGrows(areas, area, key);
  }

  lemma FilledGrows(groups: map<string, Group>, keys: seq<string>, areas: seq<Area>, area: Area)
    requires Filled(groups, keys, areas)
    ensures Filled(Appended(groups, area), if KeyOf(area) in groups then keys else keys + [KeyOf(area)], areas + [area])
  {
    KeysGrow(areas, area);
    FloorIsInhabited(areas, KeyOf(area));
    forall key ensures HoldsFloor(Appended(groups, area), areas + [area], key) {
      FloorStaysHeld(groups, areas, area, key);
    }
  }

  lemma KeysGrow(areas: seq<Area>, area: Area)
    ensures FloorKeys(areas + [area]) ==
            FloorKeys(areas) + if KeyOf(area) in FloorKeys(areas) then [] else [KeyOf(area)]
  {
    assert (areas + [area])[..|areas|] == areas;
  }

  // ----- What the grouping promises

  function Listed(groups: seq<Group>): seq<Area> {
    if |groups| == 0 then [] else groups[0].areas + Listed(groups[1..])
  }

  lemma {:induction false} ListedInsert(group: Group, groups: seq<Group>, le: (Group, Group) -> bool)
    ensures multiset(Listed(Insert(group, groups, le))) == multiset(group.areas) + multiset(Listed(groups))
  {
    if |groups| == 0 || le(group, groups[0]) {
      assert ([group] + groups)[1..] == groups;
    } else {
      ListedInsert(group, groups[1..], le);
      assert Insert(group, groups, le)[1..] == Insert(group, groups[1..], le);
    }
  }

  lemma {:induction false} ListedSorted(groups: seq<Group>, le: (Group, Group) -> bool)
    ensures multiset(Listed(StableSort(groups, le))) == multiset(Listed(groups))
  {
    if |groups| == 0 {
    } else {
      ListedSorted(groups[1..], le);
      ListedInsert(groups[0], StableSort(groups[1..], le), le);
    }
  }

  lemma {:induction false} ListedSortedAreas(groups: seq<Group>, locale: Locale)
    requires TotalPreorder(locale)
    ensures multiset(Listed(SortAreas(groups, locale))) == multiset(Listed(groups))
  {
    if |groups| == 0 {
    } else {
      ListedSortedAreas(groups[1..], locale);
      assert SortAreas(groups, locale)[1..] == SortAreas(groups[1..], locale);
      OrdersArePreorders(locale);
      StableSortSorts(groups[0].areas, AreaOrder(locale));
    }
  }

  /** Floors listed one after another, with no floor twice, hold exactly the areas on them. */
  lemma {:induction false} ListedFloors(areas: seq<Area>, keys: seq<string>, area: Area)
    requires Distinct(keys) && forall key :: key in keys ==> |Filter(areas, OnFloor(key))| > 0
    ensures multiset(Listed(Floors(areas, keys)))[area] == if KeyOf(area) in keys then multiset(areas)[area] else 0
  {
    if |keys| == 0 {
    } else {
      ListedFloors(areas, keys[1..], area);
      assert Floors(areas, keys)[1..] == Floors(areas, keys[1..]);
      FilterCounts(areas, OnFloor(keys[0]));
      assert keys[0] !in keys[1..];
    }
  }

  /** The grouping loses nothing and repeats nothing: it lists exactly the areas it was given. */
  lemma GroupingIsAPartition(areas: seq<Area>, locale: Locale)
    requires TotalPreorder(locale)
    ensures multiset(Listed(GroupedByFloor(areas, locale))) == multiset(areas)
  {
    var keys := FloorKeys(areas);
    FloorKeysDistinct(areas);
    UngroupedAreTheFloors(areas);
    assert Ungrouped(areas) == Floors(areas, keys);
    forall area ensures multiset(Listed(Ungrouped(areas)))[area] == multiset(areas)[area] {
      ListedFloors(areas, keys, area);
      if area in areas {
        FloorIsListed(areas, area);
      }
    }
    assert multiset(Listed(Ungrouped(areas))) == multiset(areas);
    ListedSorted(Ungrouped(areas), GroupOrder(locale));
    ListedSortedAreas(StableSort(Ungrouped(areas), GroupOrder(locale)), locale);
  }

  /** A floor's group, wherever the sort put it: non-empty, of that floor only, and labelled by its first area. */
  ghost predicate IsFloorGroup(group: Group, areas: seq<Area>, locale: Locale) {
    var here := Filter(areas, OnFloor(group.key));
    && |here| > 0
    && group == OpenedBy(here[0]).(areas := group.areas)
    && IsStableSortOf(group.areas, here, AreaOrder(locale))
  }

  lemma UngroupedAreTheFloors(areas: seq<Area>)
    ensures var raw, keys := Ungrouped(areas), FloorKeys(areas);
            |raw| == |keys| && forall k :: 0 <= k < |keys| ==>
              |Filter(areas, OnFloor(keys[k]))| > 0 && raw[k] == FloorOf(areas, keys[k]) && raw[k].key == keys[k]
  {
    var keys := FloorKeys(areas);
    forall k | 0 <= k < |keys| ensures |Filter(areas, OnFloor(keys[k]))| > 0 && FloorOf(areas, keys[k]).key == keys[k] {
      FloorIsInhabited(areas, keys[k]);
      FirstOnFloor(areas, keys[k]);
    }
  }

  lemma EveryGroupIsAFloor(areas: seq<Area>, locale: Locale, i: nat)
    requires TotalPreorder(locale) && i < |GroupedByFloor(areas, locale)|
    ensures IsFloorGroup(GroupedByFloor(areas, locale)[i], areas, locale)
  {
    var raw := Ungrouped(areas);
    var sorted := StableSort(raw, GroupOrder(locale));
    OrdersArePreorders(locale);
    StableSortMembers(raw, GroupOrder(locale));
    UngroupedAreTheFloors(areas);
    assert sorted[i] in raw;
    var k :| 0 <= k < |raw| && raw[k] == sorted[i];
    StableSortIsStable(sorted[i].areas, AreaOrder(locale));
  }

  lemma EveryFloorHasAGroup(areas: seq<Area>, locale: Locale, area: Area) returns (i: nat)
    requires TotalPreorder(locale) && area in areas
    ensures i < |GroupedByFloor(areas, locale)| && GroupedByFloor(areas, locale)[i].key == KeyOf(area)
  {
    var raw, keys := Ungrouped(areas), FloorKeys(areas);
    var sorted := StableSort(raw, GroupOrder(locale));
    OrdersArePreorders(locale);
    StableSortMembers(raw, GroupOrder(locale));
    UngroupedAreTheFloors(areas);
    FloorIsListed(areas, area);
    var k :| 0 <= k < |keys| && keys[k] == KeyOf(area);
    assert raw[k] in sorted;
    i :| 0 <= i < |sorted| && sorted[i] == raw[k];
  }

  /**
   * One group for every floor with an area and no other, each holding that floor's areas stably sorted by order and
   * name, the groups themselves sorted by the floor's order and name.
   */
  lemma GroupsAreTheFloors(areas: seq<Area>, locale: Locale)
    requires TotalPreorder(locale)
    ensures var groups := GroupedByFloor(areas, locale);
            && OneGroupPerFloor(groups)
            && (forall area :: area in areas ==> exists i :: 0 <= i < |groups| && groups[i].key == KeyOf(area))
            && (forall i :: 0 <= i < |groups| ==> IsFloorGroup(groups[i], areas, locale))
            && Sorted(groups, GroupOrder(locale))
  {
    var raw, groups := Ungrouped(areas), GroupedByFloor(areas, locale);
    OrdersArePreorders(locale);
    StableSortSorts(raw, GroupOrder(locale));
    FloorKeysDistinct(areas);
    UngroupedAreTheFloors(areas);
    SortKeepsFloorsApart(raw, locale);
    forall area | area in areas ensures exists i :: 0 <= i < |groups| && groups[i].key == KeyOf(area) {
      var i := EveryFloorHasAGroup(areas, locale, area);
    }
    forall i | 0 <= i < |groups| ensures IsFloorGroup(groups[i], areas, locale) {
      EveryGroupIsAFloor(areas, locale, i);
    }
  }

  /** The floor of an area, and what its group is headed and placed by. */
  predicate HeadedBy(group: Group, area: Area) {
    if area.floor.Some? then
      group.key == area.floor.value.id && group.title == area.floor.value.name
      && group.sortOrder == area.floor.value.sortOrder
    else group.key == "no-floor" && group.title == "No floor" && group.sortOrder == 9_007_199_254_740_991
  }

  /** One floor's group, in the fields a reader sees. */
  ghost predicate GroupReads(group: Group, areas: seq<Area>, locale: Locale) {
    && (exists area :: area in areas && area in group.areas && HeadedBy(group, area))
    && (forall area :: area in group.areas <==>
          area in areas && group.key == if area.floor.Some? then area.floor.value.id else "no-floor")
    && ReadsInOrder(group.areas, locale)
  }

  /**
   * In the fields a reader sees: a group is headed by the floor of an area in it and holds exactly the areas of that
   * floor (or of none), which go by their order, then by name ...
   */
  lemma EveryGroupReads(areas: seq<Area>, locale: Locale, i: nat)
    requires TotalPreorder(locale) && i < |GroupedByFloor(areas, locale)|
    ensures GroupReads(GroupedByFloor(areas, locale)[i], areas, locale)
  {
    EveryGroupIsAFloor(areas, locale, i);
    GroupReadsAs(GroupedByFloor(areas, locale)[i], areas, locale);
  }

  /** ... and the floors go by theirs, those of one order by name, the areas without a floor among the last. */
  lemma FloorsReadInOrder(areas: seq<Area>, locale: Locale, i: nat, j: nat)
    requires TotalPreorder(locale) && i < j < |GroupedByFloor(areas, locale)|
    ensures var g, h := GroupedByFloor(areas, locale)[i], GroupedByFloor(areas, locale)[j];
            g.sortOrder < h.sortOrder || (g.sortOrder == h.sortOrder && locale(g.title, h.title))
  {
    GroupsAreTheFloors(areas, locale);
    assert GroupOrder(locale)(GroupedByFloor(areas, locale)[i], GroupedByFloor(areas, locale)[j]);
  }

  predicate ReadsInOrder(areas: seq<Area>, locale: Locale) {
    forall i, j :: 0 <= i < j < |areas| ==>
      || areas[i].inspectionOrder < areas[j].inspectionOrder
      || (areas[i].inspectionOrder == areas[j].inspectionOrder && locale(areas[i].name, areas[j].name))
  }

  lemma GroupReadsAs(group: Group, areas: seq<Area>, locale: Locale)
    requires TotalPreorder(locale) && IsFloorGroup(group, areas, locale)
    ensures GroupReads(group, areas, locale)
  {
    var here := Filter(areas, OnFloor(group.key));
    OrdersArePreorders(locale);
    StableSortUnique(group.areas, here, AreaOrder(locale));
    StableSortMembers(here, AreaOrder(locale));
    assert here[0] in here && HeadedBy(group, here[0]);
    forall i, j | 0 <= i < j < |group.areas|
      ensures || group.areas[i].inspectionOrder < group.areas[j].inspectionOrder
              || (group.areas[i].inspectionOrder == group.areas[j].inspectionOrder
                  && locale(group.areas[i].name, group.areas[j].name))
    {
      assert AreaOrder(locale)(group.areas[i], group.areas[j]);
    }
  }

  lemma FirstOnFloor(areas: seq<Area>, key: string)
    requires |Filter(areas, OnFloor(key))| > 0
    ensures KeyOf(Filter(areas, OnFloor(key))[0]) == key && FloorOf(areas, key).key == key
  {
    assert Filter(areas, OnFloor(key))[0] in Filter(areas, OnFloor(key));
  }

  ghost predicate OneGroupPerFloor(groups: seq<Group>) {
    forall i, j :: 0 <= i < j < |groups| ==> groups[i].key != groups[j].key
  }

  lemma {:induction false} InsertKeepsFloorsApart(group: Group, groups: seq<Group>, le: (Group, Group) -> bool)
    requires OneGroupPerFloor(groups) && forall g :: g in groups ==> g.key != group.key
    ensures OneGroupPerFloor(Insert(group, groups, le))
  {
    if |groups| == 0 || le(group, groups[0]) {
    } else {
      InsertKeepsFloorsApart(group, groups[1..], le);
      InsertMultiset(group, groups[1..], le);
      var rest := Insert(group, groups[1..], le);
      forall g | g in rest ensures g.key != groups[0].key {
        assert g in multiset(rest);
      }
    }
  }

  /** Sorting the groups keeps one group per floor. */
  lemma {:induction false} SortKeepsFloorsApart(groups: seq<Group>, locale: Locale)
    requires TotalPreorder(locale) && OneGroupPerFloor(groups)
    ensures OneGroupPerFloor(StableSort(groups, GroupOrder(locale)))
  {
    if |groups| == 0 {
    } else {
      SortKeepsFloorsApart(groups[1..], locale);
      OrdersArePreorders(locale);
      StableSortMembers(groups[1..], GroupOrder(locale));
      InsertKeepsFloorsApart(groups[0], StableSort(groups[1..], GroupOrder(locale)), GroupOrder(locale));
    }
  }
}
