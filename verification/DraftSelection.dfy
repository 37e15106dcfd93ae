/** Which drafts are ticked (floor-plan-manager.tsx): a set of ids, and the effect that prunes it to a new list. */
module DraftSelection {
  import opened Sequences
  import opened Sorting
  import opened FloorGroups

  /** `due` while the list on screen is newer than the last run of the effect that prunes the selection. */
  datatype State = State(draftIds: seq<string>, selectedIds: set<string>, due: bool)

  datatype Event =
    | Toggle(id: string, selected: bool)
    | SetGroup(ids: seq<string>, selected: bool)
    | Committed(draftIds: seq<string>)
    | Pruned
    | Deleted

  function Ids(areas: seq<Area>): seq<string> {
    seq(|areas|, i requires 0 <= i < |areas| => areas[i].id)
  }

  function Members(ids: seq<string>): set<string> {
    set id | id in ids
  }

  function Next(s: State, event: Event): State {
    match event
    case Toggle(id, selected) => s.(selectedIds := if selected then s.selectedIds + {id} else s.selectedIds - {id})
    case SetGroup(ids, selected) =>
      s.(selectedIds := if selected then s.selectedIds + Members(ids) else s.selectedIds - Members(ids))
    case Committed(draftIds) => s.(draftIds := draftIds, due := true)
    case Pruned => s.(selectedIds := s.selectedIds * Members(s.draftIds), due := false)
    case Deleted => s.(selectedIds := {})
  }

  /** What the rows and headings on screen can ask for; a refetch may bring any list of distinct drafts. */
  ghost predicate Offered(s: State, event: Event) {
    match event
    case Toggle(id, _) => id in s.draftIds
    case SetGroup(ids, _) => forall id :: id in ids ==> id in s.draftIds
    case Committed(draftIds) => Distinct(draftIds)
    case Pruned => true
    case Deleted => true
  }

  class Selection {
    var draftIds: seq<string>
    var selectedIds: set<string>
    var due: bool

    ghost function Now(): State
      reads this
    {
      State(draftIds, selectedIds, due)
    }

    constructor ()
      ensures Now() == State([], {}, false)
    {
      draftIds, selectedIds, due := [], {}, false;
    }

    method ToggleSelected(id: string, selected: bool)
      modifies this`selectedIds
      ensures Now() == Next(old(Now()), Toggle(id, selected))
    {
      selectedIds := if selected then selectedIds + {id} else selectedIds - {id};
    }

    method SetGroupSelected(ids: seq<string>, selected: bool)
      modifies this`selectedIds
      ensures Now() == Next(old(Now()), SetGroup(ids, selected))
    {
      var next := selectedIds;
      for i := 0 to |ids|
        invariant next == if selected then selectedIds + Members(ids[..i]) else selectedIds - Members(ids[..i])
      {
        next := if selected then next + {ids[i]} else next - {ids[i]};
        assert ids[..i + 1] == ids[..i] + [ids[i]];
      }
      assert ids[..|ids|] == ids;
      selectedIds := next;
    }

    /** A commit with a new list of drafts; the effect on it runs later. */
    method Commit(drafts: seq<string>)
      modifies this`draftIds, this`due
      ensures Now() == Next(old(Now()), Committed(drafts))
    {
      draftIds, due := drafts, true;
    }

    /** The effect on the draft list: ids that are gone leave the selection, and an unchanged one is kept as it is. */
    method Prune()
      modifies this`selectedIds, this`due
      ensures Now() == Next(old(Now()), Pruned)
    {
      var next := set id | id in selectedIds && id in draftIds;
      if |next| != |selectedIds| {
        assert next == selectedIds * Members(draftIds);
        selectedIds := next;
      } else {
        SubsetOfSameSize(next, selectedIds);
        assert selectedIds == selectedIds * Members(draftIds);
      }
      due := false;
    }

    method Clear()
      modifies this`selectedIds
      ensures Now() == Next(old(Now()), Deleted)
    {
      selectedIds := {};
    }
  }

  lemma SubsetOfSameSize<T>(a: set<T>, b: set<T>)
    requires a <= b
    ensures |a| == |b| <==> a == b
  {
    assert b == a + (b - a);
    assert |b| == |a| + |b - a|;
  }

  // ----- Every run

  /** Only drafts that still exist are selected. */
  ghost predicate Live(s: State) {
    Distinct(s.draftIds) && s.selectedIds <= Members(s.draftIds)
  }

  /** ... but for the time between a commit with a new list and the effect that prunes the selection to it. */
  ghost predicate LiveOnceSettled(s: State) {
    Distinct(s.draftIds) && (!s.due ==> Live(s))
  }

  ghost predicate OfferedRun(s: State, events: seq<Event>)
    decreases |events|
  {
    |events| > 0 ==> Offered(s, events[0]) && OfferedRun(Next(s, events[0]), events[1..])
  }

  function Run(s: State, events: seq<Event>): State
    decreases |events|
  {
    if |events| == 0 then s else Run(Next(s, events[0]), events[1..])
  }

  /** In every run, the commits that come before the effect included, a stale id is selected only while it is due. */
  lemma {:induction false} SelectionStaysLive(s: State, events: seq<Event>)
    requires LiveOnceSettled(s) && OfferedRun(s, events)
    ensures LiveOnceSettled(Run(s, events))
    decreases |events|
  {
    if |events| == 0 {
    } else {
      SelectionStaysLive(Next(s, events[0]), events[1..]);
    }
  }

  /** What one event does to one id: it is as it was said, and no other event touches it. */
  lemma SelectionIsAsSaid(s: State, event: Event, id: string)
    ensures id in Next(s, event).selectedIds <==>
            match event
            case Toggle(one, selected) => if id == one then selected else id in s.selectedIds
            case SetGroup(ids, selected) => if id in ids then selected else id in s.selectedIds
            case Committed(_) => id in s.selectedIds
            case Pruned => id in s.selectedIds && id in s.draftIds
            case Deleted => false
    ensures Next(s, event).draftIds == if event.Committed? then event.draftIds else s.draftIds
    ensures Next(s, event).due <==> event.Committed? || (s.due && !event.Pruned?)
  {
  }

  /** Then the effect drops exactly the stale ids. */
  lemma PruningSettles(s: State, events: seq<Event>)
    requires LiveOnceSettled(s) && OfferedRun(s, events)
    ensures var now := Run(s, events);
            && Live(Next(now, Pruned))
            && forall id :: id in now.selectedIds ==> (id in Next(now, Pruned).selectedIds <==> id in now.draftIds)
  {
    SelectionStaysLive(s, events);
  }

  /**
   * The toolbar compares sizes. On any list that says "all of them" exactly when as many selected ids are stale as
   * drafts are unselected.
   */
  lemma SizesAgreeExactly(s: State)
    requires Distinct(s.draftIds)
    ensures |s.selectedIds| == |s.draftIds| <==>
            |s.selectedIds - Members(s.draftIds)| == |Members(s.draftIds) - s.selectedIds|
  {
    var drafts := Members(s.draftIds);
    DistinctSize(s.draftIds);
    assert s.selectedIds == (s.selectedIds - drafts) + (s.selectedIds * drafts);
    assert |s.selectedIds| == |s.selectedIds - drafts| + |s.selectedIds * drafts|;
    assert drafts == (drafts - s.selectedIds) + (s.selectedIds * drafts);
    assert |drafts| == |drafts - s.selectedIds| + |s.selectedIds * drafts|;
  }

  /** ... so on a live selection it means what it says. */
  lemma AllDraftsSelectedBySize(s: State)
    requires Live(s)
    ensures |s.draftIds| > 0 && |s.selectedIds| == |s.draftIds|
            <==> s.draftIds != [] && s.selectedIds == Members(s.draftIds)
  {
    SizesAgreeExactly(s);
    DistinctSize(s.draftIds);
    SubsetOfSameSize(s.selectedIds, Members(s.draftIds));
  }

  // ----- Counts per floor

  function Chosen(selectedIds: set<string>): Area -> bool {
    (area: Area) => area.id in selectedIds
  }

  /** The sum of the counts the floor headings show. */
  function HeadingTotal(groups: seq<Group>, selectedIds: set<string>): nat {
    if |groups| == 0 then 0
    else |Filter(groups[0].areas, Chosen(selectedIds))| + HeadingTotal(groups[1..], selectedIds)
  }

  lemma {:induction false} HeadingsCountTheList(groups: seq<Group>, selectedIds: set<string>)
    ensures HeadingTotal(groups, selectedIds) == |Filter(Listed(groups), Chosen(selectedIds))|
  {
    if |groups| == 0 {
    } else {
      HeadingsCountTheList(groups[1..], selectedIds);
      FilterAppend(groups[0].areas, Listed(groups[1..]), Chosen(selectedIds));
    }
  }

  /** Every selected id is one area of the list when the ids are distinct. */
  lemma {:induction false} ChosenAreAsMany(areas: seq<Area>, selectedIds: set<string>)
    requires Distinct(Ids(areas)) && selectedIds <= Members(Ids(areas))
    ensures |Filter(areas, Chosen(selectedIds))| == |selectedIds|
  {
    if |areas| == 0 {
    } else {
      var first, rest := areas[0], areas[1..];
      assert Ids(areas) == [first.id] + Ids(rest);
      forall k | 0 <= k < |rest| ensures Ids(rest)[k] != first.id {
        assert Ids(areas)[k + 1] == Ids(rest)[k] && Ids(areas)[0] == first.id;
      }
      assert Ids(areas)[1..] == Ids(rest);
      var others := selectedIds - {first.id};
      assert first.id !in Ids(rest);
      forall id | id in others ensures id in Members(Ids(rest)) {
        assert id in Ids(areas);
      }
      ChosenAreAsMany(rest, others);
      forall area | area in rest ensures Chosen(selectedIds)(area) == Chosen(others)(area) {
        var i :| 0 <= i < |rest| && rest[i] == area;
        assert Ids(rest)[i] == area.id;
      }
      FilterSame(rest, Chosen(selectedIds), Chosen(others));
    }
  }

  /** The floors' counts add up to the toolbar's exactly when no stale id is selected. */
  lemma FloorCountsSumToTotal(drafts: seq<Area>, locale: Locale, selectedIds: set<string>)
    requires TotalPreorder(locale) && Distinct(Ids(drafts))
    ensures var total := HeadingTotal(GroupedByFloor(drafts, locale), selectedIds);
            && total == |selectedIds * Members(Ids(drafts))|
            && (total == |selectedIds| <==> selectedIds <= Members(Ids(drafts)))
  {
    var groups := GroupedByFloor(drafts, locale);
    var live := selectedIds * Members(Ids(drafts));
    HeadingsCountTheList(groups, selectedIds);
    GroupingIsAPartition(drafts, locale);
    FilterOfPermutation(Listed(groups), drafts, Chosen(selectedIds));
    ChosenAreAsMany(drafts, live);
    forall area | area in drafts ensures Chosen(selectedIds)(area) == Chosen(live)(area) {
      var i :| 0 <= i < |drafts| && drafts[i] == area;
      assert Ids(drafts)[i] == area.id;
    }
    FilterSame(drafts, Chosen(selectedIds), Chosen(live));
    SubsetOfSameSize(live, selectedIds);
  }
}
