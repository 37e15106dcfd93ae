/**
 * Adding approved areas to an inspection under way: what the dialog offers (inspection-workflow.tsx), by the layout
 * rule both sides share (standard-layout.ts), and what the server takes (admin.service.ts).
 */
module AddAreas {
  import opened Options
  import opened Sequences
  import opened Sorting

  datatype Area = Area(id: string, approved: bool, unitId: Option<string>, source: Option<string>, inspectionOrder: int)

  // ----- The layout rule

  const NON_ROOM_SOURCES := ["SYSTEM"]
  const WHOLE_LAYOUT_SOURCES := ["IMPORTED_REPORT", "AI_FLOOR_PLAN"]
  const STANDARD_LAYOUT_SOURCE := "STANDARD_TEMPLATE"

  function IsRoom(): Area -> bool {
    (area: Area) => !Truthy(area.source) || area.source.value !in NON_ROOM_SOURCES
  }

  function IsWholeLayout(): Area -> bool {
    (area: Area) => Truthy(area.source) && area.source.value in WHOLE_LAYOUT_SOURCES
  }

  function IsStandard(): Area -> bool {
    (area: Area) => area.source == Some(STANDARD_LAYOUT_SOURCE)
  }

  predicate Superseded(areas: seq<Area>) {
    Filter(areas, IsWholeLayout()) != []
  }

  function LayoutAreasFor(areas: seq<Area>): seq<Area> {
    var rooms := Filter(areas, IsRoom());
    if !Superseded(rooms) then rooms else Filter(rooms, Not(IsStandard()))
  }

  lemma SupersededMeans(areas: seq<Area>)
    ensures Superseded(areas) <==> exists area :: area in areas && IsWholeLayout()(area)
  {
    if Superseded(areas) {
      assert Filter(areas, IsWholeLayout())[0] in areas;
    }
    if area :| area in areas && IsWholeLayout()(area) {
      assert area in Filter(areas, IsWholeLayout());
    }
  }

  lemma LayoutMembers(areas: seq<Area>)
    ensures forall area :: area in LayoutAreasFor(areas) <==>
              area in areas && IsRoom()(area) && !(Superseded(areas) && IsStandard()(area))
  {
    var rooms := Filter(areas, IsRoom());
    SupersededMeans(areas);
    SupersededMeans(rooms);
    assert forall area :: IsWholeLayout()(area) ==> IsRoom()(area);
    assert Superseded(rooms) == Superseded(areas);
  }

  // ----- What the dialog offers

  function IsApproved(): Area -> bool {
    (area: Area) => area.approved
  }

  function InUnit(unitId: string): Area -> bool {
    (area: Area) => area.unitId == Some(unitId)
  }

  function InBuilding(): Area -> bool {
    (area: Area) => !Truthy(area.unitId)
  }

  function NotIn(present: set<string>): Area -> bool {
    (area: Area) => area.id !in present
  }

  function ByOrder(): (Area, Area) -> bool {
    (left: Area, right: Area) => left.inspectionOrder <= right.inspectionOrder
  }

  /** A unit's own areas when it has any, the building's otherwise. */
  function Scoped(areas: seq<Area>, unitId: Option<string>): seq<Area> {
    var scope := if Truthy(unitId) then Filter(areas, InUnit(unitId.value)) else [];
    if |scope| > 0 then scope else Filter(areas, InBuilding())
  }

  function Eligible(areas: seq<Area>, unitId: Option<string>): seq<Area> {
    Scoped(LayoutAreasFor(Filter(areas, IsApproved())), unitId)
  }

  function Candidates(areas: seq<Area>, unitId: Option<string>, present: set<string>): seq<Area> {
    StableSort(Filter(Eligible(areas, unitId), NotIn(present)), ByOrder())
  }

  /**
   * Adding areas takes exactly those off the list and moves none of the others: which layout is offered does not
   * depend on what is already there.
   */
  lemma AddingTakesOffTheList(areas: seq<Area>, unitId: Option<string>, present: set<string>, added: set<string>)
    ensures Candidates(areas, unitId, present + added) == Filter(Candidates(areas, unitId, present), NotIn(added))
  {
    var eligible := Eligible(areas, unitId);
    FilterTwice(eligible, NotIn(present), NotIn(added), NotIn(present + added));
    SortFilter(Filter(eligible, NotIn(present)), ByOrder(), NotIn(added));
  }

  /** ... so once everything offered has been added nothing is, and a covered unit never turns to the building. */
  lemma AddingAllLeavesNothing(areas: seq<Area>, unitId: Option<string>, present: set<string>, added: set<string>)
    ensures Candidates(areas, unitId, present + added) == [] <==>
            forall area :: area in Candidates(areas, unitId, present) ==> area.id in added
  {
    AddingTakesOffTheList(areas, unitId, present, added);
    var offered := Candidates(areas, unitId, present);
    if Filter(offered, NotIn(added)) == [] {
      forall area | area in offered ensures area.id in added {
        assert area !in Filter(offered, NotIn(added));
      }
    } else {
      assert Filter(offered, NotIn(added))[0] in offered;
    }
  }

  /** Exactly the eligible areas not yet there, each as often as it is listed, in inspection order. */
  lemma OfferedIsEligibleAndAbsent(areas: seq<Area>, unitId: Option<string>, present: set<string>)
    ensures Sorted(Candidates(areas, unitId, present), ByOrder())
    ensures forall area :: area in Candidates(areas, unitId, present) <==>
                           area in Eligible(areas, unitId) && area.id !in present
  {
    StableSortSorts(Filter(Eligible(areas, unitId), NotIn(present)), ByOrder());
    StableSortMembers(Filter(Eligible(areas, unitId), NotIn(present)), ByOrder());
  }

  /** Subtracting what is there before choosing the layout, the order the source warns against. */
  function FilteredFirst(areas: seq<Area>, unitId: Option<string>, present: set<string>): seq<Area> {
    Scoped(Filter(LayoutAreasFor(Filter(areas, IsApproved())), NotIn(present)), unitId)
  }

  /** That order goes wrong exactly for a unit whose areas are all there, in a building with one that is not. */
  lemma FilteringFirstFlipsCoveredUnits(areas: seq<Area>, unitId: Option<string>, present: set<string>)
    ensures var approved := LayoutAreasFor(Filter(areas, IsApproved()));
            FilteredFirst(areas, unitId, present) != Filter(Eligible(areas, unitId), NotIn(present)) <==>
            && Truthy(unitId)
            && (exists area :: area in approved && InUnit(unitId.value)(area))
            && (forall area :: area in approved && InUnit(unitId.value)(area) ==> area.id in present)
            && (exists area :: area in approved && InBuilding()(area) && area.id !in present)
  {
    var approved := LayoutAreasFor(Filter(areas, IsApproved()));
    Swapped(approved, NotIn(present), InBuilding());
    if Truthy(unitId) {
      CoveredUnit(approved, unitId.value, present);
    }
  }

  lemma CoveredUnit(approved: seq<Area>, unitId: string, present: set<string>)
    requires unitId != ""
    ensures Scoped(Filter(approved, NotIn(present)), Some(unitId))
            != Filter(Scoped(approved, Some(unitId)), NotIn(present)) <==>
            && (exists area :: area in approved && InUnit(unitId)(area))
            && (forall area :: area in approved && InUnit(unitId)(area) ==> area.id in present)
            && (exists area :: area in approved && InBuilding()(area) && area.id !in present)
  {
    var scope := Filter(approved, InUnit(unitId));
    Swapped(approved, NotIn(present), InUnit(unitId));
    Swapped(approved, NotIn(present), InBuilding());
    HasOne(approved, InUnit(unitId), NotIn(present));
    HasOne(approved, InBuilding(), NotIn(present));
    if |scope| > 0 {
      assert scope[0] in scope;
    }
    assert forall area :: area in scope <==> area in approved && InUnit(unitId)(area);
  }

  lemma Swapped(areas: seq<Area>, p: Area -> bool, q: Area -> bool)
    ensures Filter(Filter(areas, p), q) == Filter(Filter(areas, q), p)
  {
    var both := (area: Area) => p(area) && q(area);
    FilterTwice(areas, p, q, both);
    FilterTwice(areas, q, p, both);
  }

  lemma HasOne(areas: seq<Area>, p: Area -> bool, q: Area -> bool)
    ensures Filter(Filter(areas, p), q) == [] <==> forall area :: area in areas && p(area) ==> !q(area)
  {
    var found := Filter(Filter(areas, p), q);
    if found != [] {
      assert found[0] in found;
    } else {
      forall area | area in areas && p(area) ensures !q(area) {
        assert area !in found;
      }
    }
  }

  /** What the layout rule keeps, by the sources' own names. */
  predicate Laid(areas: seq<Area>, area: Area) {
    && area in areas && area.source != Some("SYSTEM")
    && (area.source == Some("STANDARD_TEMPLATE") ==>
          forall other :: other in areas ==>
            other.source != Some("IMPORTED_REPORT") && other.source != Some("AI_FLOOR_PLAN"))
  }

  lemma LayoutReads(areas: seq<Area>, area: Area)
    ensures area in LayoutAreasFor(areas) <==> Laid(areas, area)
  {
    LayoutMembers(areas);
    SupersededMeans(areas);
    forall other ensures IsWholeLayout()(other) <==>
                         other.source == Some("IMPORTED_REPORT") || other.source == Some("AI_FLOOR_PLAN")
    {
    }
    assert IsRoom()(area) <==> area.source != Some("SYSTEM");
  }

  /** An approved area, on the property as its whole layout has it. */
  predicate Approved(areas: seq<Area>, area: Area) {
    area.approved && Laid(Filter(areas, IsApproved()), area)
  }

  /**
   * What may be offered, in the fields of an area: the unit's own if it has any that count, the building's otherwise.
   */
  lemma EligibleReads(areas: seq<Area>, unitId: Option<string>, area: Area)
    ensures var ownUnit := unitId.Some? && unitId.value != ""
                           && exists other :: Approved(areas, other) && other.unitId == unitId;
            area in Eligible(areas, unitId) <==>
            && Approved(areas, area)
            && if ownUnit then area.unitId == unitId else area.unitId.None? || area.unitId == Some("")
  {
    var approved := Filter(areas, IsApproved());
    forall other ensures other in LayoutAreasFor(approved) <==> Approved(areas, other) {
      LayoutReads(approved, other);
    }
    ScopedMembers(LayoutAreasFor(approved), unitId);
    if Truthy(unitId) {
      forall other ensures InUnit(unitId.value)(other) <==> other.unitId == unitId {
      }
    }
  }

  /** The dialog's list, in the fields: what is eligible and not there yet, by inspection order. */
  lemma CandidatesRead(areas: seq<Area>, unitId: Option<string>, present: set<string>)
    ensures forall area :: area in Candidates(areas, unitId, present) <==>
              area in Eligible(areas, unitId) && area.id !in present
    ensures var offered := Candidates(areas, unitId, present);
            forall i, j :: 0 <= i < j < |offered| ==> offered[i].inspectionOrder <= offered[j].inspectionOrder
  {
    OfferedIsEligibleAndAbsent(areas, unitId, present);
    var offered := Candidates(areas, unitId, present);
    forall i, j | 0 <= i < j < |offered| ensures offered[i].inspectionOrder <= offered[j].inspectionOrder {
      assert ByOrder()(offered[i], offered[j]);
    }
  }

  // ----- What the server takes

  /**
   * The server chooses between unit and building first, and only then applies the layout rule, and only to visits that
   * walk rooms: every type but HVAC, filter delivery and roof (inspection-scope.ts:82-104).
   */
  function OnTheProperty(areas: seq<Area>, unitId: Option<string>): seq<Area> {
    Scoped(Filter(areas, IsApproved()), unitId)
  }

  function ServerEligible(areas: seq<Area>, unitId: Option<string>, walksRooms: bool): seq<Area> {
    if walksRooms then LayoutAreasFor(OnTheProperty(areas, unitId)) else OnTheProperty(areas, unitId)
  }

  datatype Refusal = InvalidAreaSelection | AreasAlreadyPresent

  datatype Added = Ok(present: set<string>) | Refused(refusal: Refusal)

  function AddInspectionAreas(
    areas: seq<Area>, unitId: Option<string>, walksRooms: bool, present: set<string>, requested: set<string>
  ): Added {
    var eligible := set area | area in ServerEligible(areas, unitId, walksRooms) :: area.id;
    if !(requested <= eligible) then Refused(InvalidAreaSelection)
    else if requested <= present then Refused(AreasAlreadyPresent)
    else Ok(present + requested)
  }

  /** What the server answers: everything asked for, or one of two refusals, each for its own reason. */
  lemma ServerAnswers(
    areas: seq<Area>, unitId: Option<string>, walksRooms: bool, present: set<string>, requested: set<string>)
    ensures var known := forall id :: id in requested ==>
                           exists area :: area in ServerEligible(areas, unitId, walksRooms) && area.id == id;
            AddInspectionAreas(areas, unitId, walksRooms, present, requested) ==
            if !known then Refused(InvalidAreaSelection)
            else if forall id :: id in requested ==> id in present then Refused(AreasAlreadyPresent)
            else Ok(present + requested)
  {
  }

  /**
   * The unit has approved areas, the layout rule drops them all, and the building has some that are not there yet: the
   * dialog falls back to the building and the server does not.
   */
  ghost predicate Stranded(areas: seq<Area>, unitId: Option<string>, present: set<string>) {
    var approved := Filter(areas, IsApproved());
    && Truthy(unitId)
    && (exists area :: area in approved && InUnit(unitId.value)(area))
    && (forall area :: area in LayoutAreasFor(approved) ==> !InUnit(unitId.value)(area))
    && (exists area :: area in LayoutAreasFor(approved) && InBuilding()(area) && area.id !in present)
  }

  lemma ScopedMembers(areas: seq<Area>, unitId: Option<string>)
    ensures var own := Truthy(unitId) && exists area :: area in areas && InUnit(unitId.value)(area);
            forall area :: area in Scoped(areas, unitId) <==>
              area in areas && if own then InUnit(unitId.value)(area) else InBuilding()(area)
  {
    if Truthy(unitId) {
      var scope := Filter(areas, InUnit(unitId.value));
      if |scope| > 0 {
        assert scope[0] in scope;
      }
      if area :| area in areas && InUnit(unitId.value)(area) {
        assert area in scope;
      }
    }
  }

  /** What the rule keeps of the whole property it keeps of any part: only a part may be less superseded. */
  lemma PartKeepsMore(areas: seq<Area>, unitId: Option<string>, area: Area)
    requires area in LayoutAreasFor(areas) && area in Scoped(areas, unitId)
    ensures area in LayoutAreasFor(Scoped(areas, unitId))
  {
    LayoutMembers(areas);
    LayoutMembers(Scoped(areas, unitId));
    SupersededMeans(areas);
    SupersededMeans(Scoped(areas, unitId));
    ScopedMembers(areas, unitId);
  }

  lemma StrandedIsRefused(areas: seq<Area>, unitId: Option<string>, walksRooms: bool, present: set<string>, area: Area)
    requires Stranded(areas, unitId, present) && area in Candidates(areas, unitId, present)
    ensures area !in ServerEligible(areas, unitId, walksRooms)
  {
    var approved := Filter(areas, IsApproved());
    OfferedIsEligibleAndAbsent(areas, unitId, present);
    ScopedMembers(approved, unitId);
    LayoutMembers(OnTheProperty(areas, unitId));
  }

  lemma UnstrandedIsTaken(areas: seq<Area>, unitId: Option<string>, walksRooms: bool, present: set<string>, area: Area)
    requires !Stranded(areas, unitId, present) && area in Candidates(areas, unitId, present)
    ensures area in ServerEligible(areas, unitId, walksRooms)
  {
    var approved := Filter(areas, IsApproved());
    OfferedIsEligibleAndAbsent(areas, unitId, present);
    LayoutMembers(approved);
    ScopedMembers(approved, unitId);
    ScopedMembers(LayoutAreasFor(approved), unitId);
    assert area in OnTheProperty(areas, unitId);
    PartKeepsMore(approved, unitId, area);
  }

  lemma StrandedIsOffered(areas: seq<Area>, unitId: Option<string>, present: set<string>, area: Area)
    requires Stranded(areas, unitId, present)
    requires area in LayoutAreasFor(Filter(areas, IsApproved())) && InBuilding()(area) && area.id !in present
    ensures area in Candidates(areas, unitId, present)
  {
    ScopedMembers(LayoutAreasFor(Filter(areas, IsApproved())), unitId);
    OfferedIsEligibleAndAbsent(areas, unitId, present);
  }

  /** Every area offered is one the server takes, unless the unit is stranded; then none of them is. */
  lemma OfferedIsTakenExactly(areas: seq<Area>, unitId: Option<string>, walksRooms: bool, present: set<string>)
    ensures !Stranded(areas, unitId, present) <==>
            forall area :: area in Candidates(areas, unitId, present) ==>
                             area in ServerEligible(areas, unitId, walksRooms)
    ensures Stranded(areas, unitId, present) ==>
            forall area :: area in Candidates(areas, unitId, present) ==>
                             area !in ServerEligible(areas, unitId, walksRooms)
  {
    if Stranded(areas, unitId, present) {
      forall area | area in Candidates(areas, unitId, present)
        ensures area !in ServerEligible(areas, unitId, walksRooms)
      {
        StrandedIsRefused(areas, unitId, walksRooms, present, area);
      }
      var area :| area in LayoutAreasFor(Filter(areas, IsApproved())) && InBuilding()(area) && area.id !in present;
      StrandedIsOffered(areas, unitId, present, area);
    } else {
      forall area | area in Candidates(areas, unitId, present)
        ensures area in ServerEligible(areas, unitId, walksRooms)
      {
        UnstrandedIsTaken(areas, unitId, walksRooms, present, area);
      }
    }
  }

  /** The layout has arrived somewhere on the property: the dialog asks this of every approved area. */
  ghost predicate LaidOut(areas: seq<Area>) {
    exists area :: area in Filter(areas, IsApproved()) && IsWholeLayout()(area)
  }

  /**
   * The dialog withholds an area that the server would take. For a visit that walks rooms: a report or floor plan
   * elsewhere on the property puts aside the standard rooms of this unit (or of the building) in the dialog, but not
   * on the server, which looks for one only among the areas it chose. For any other visit the server does not apply
   * the rule at all, so whatever is not a room, and every standard room of a property laid out, is withheld.
   */
  ghost predicate Withholds(areas: seq<Area>, unitId: Option<string>, walksRooms: bool) {
    var chosen := OnTheProperty(areas, unitId);
    if walksRooms then
      && LaidOut(areas)
      && (forall area :: area in chosen ==> !IsWholeLayout()(area))
      && (exists area :: area in chosen && IsStandard()(area))
    else
      exists area :: area in chosen && (!IsRoom()(area) || (LaidOut(areas) && IsStandard()(area)))
  }

  lemma StandardIsWithheld(areas: seq<Area>, unitId: Option<string>, area: Area)
    requires Withholds(areas, unitId, true) && area in OnTheProperty(areas, unitId) && IsStandard()(area)
    ensures area in ServerEligible(areas, unitId, true) && area !in Eligible(areas, unitId)
  {
    var approved := Filter(areas, IsApproved());
    var chosen := OnTheProperty(areas, unitId);
    LayoutMembers(approved);
    LayoutMembers(chosen);
    SupersededMeans(approved);
    SupersededMeans(chosen);
    ScopedMembers(LayoutAreasFor(approved), unitId);
  }

  lemma DroppedIsWithheld(areas: seq<Area>, unitId: Option<string>, area: Area)
    requires area in OnTheProperty(areas, unitId) && (!IsRoom()(area) || (LaidOut(areas) && IsStandard()(area)))
    ensures area in ServerEligible(areas, unitId, false) && area !in Eligible(areas, unitId)
  {
    var approved := Filter(areas, IsApproved());
    LayoutMembers(approved);
    SupersededMeans(approved);
    ScopedMembers(LayoutAreasFor(approved), unitId);
  }

  lemma WithheldIsTaken(areas: seq<Area>, unitId: Option<string>, walksRooms: bool) returns (area: Area)
    requires Withholds(areas, unitId, walksRooms)
    ensures area in ServerEligible(areas, unitId, walksRooms) && area !in Eligible(areas, unitId)
  {
    var chosen := OnTheProperty(areas, unitId);
    if walksRooms {
      area :| area in chosen && IsStandard()(area);
      StandardIsWithheld(areas, unitId, area);
    } else {
      area :| area in chosen && (!IsRoom()(area) || (LaidOut(areas) && IsStandard()(area)));
      DroppedIsWithheld(areas, unitId, area);
    }
  }

  /** Neither stranded nor withheld: what the server takes the dialog offers. */
  lemma SameChoice(areas: seq<Area>, unitId: Option<string>, walksRooms: bool, area: Area)
    requires !Stranded(areas, unitId, {}) && !Withholds(areas, unitId, walksRooms)
    requires area in ServerEligible(areas, unitId, walksRooms)
    ensures area in Eligible(areas, unitId)
  {
    var approved := Filter(areas, IsApproved());
    var chosen := OnTheProperty(areas, unitId);
    LayoutMembers(approved);
    LayoutMembers(chosen);
    SupersededMeans(approved);
    SupersededMeans(chosen);
    ScopedMembers(approved, unitId);
    ScopedMembers(LayoutAreasFor(approved), unitId);
    assert area in LayoutAreasFor(approved);
  }

  /**
   * The dialog offers exactly what the server would take, as its comment promises for every visit, unless the unit is
   * stranded or the dialog withholds something.
   */
  lemma OffersWhatTheServerTakesExactly(areas: seq<Area>, unitId: Option<string>, walksRooms: bool)
    ensures (forall area :: area in Eligible(areas, unitId) <==> area in ServerEligible(areas, unitId, walksRooms)) <==>
            !Stranded(areas, unitId, {}) && !Withholds(areas, unitId, walksRooms)
  {
    OfferedIsTakenExactly(areas, unitId, walksRooms, {});
    OfferedIsEligibleAndAbsent(areas, unitId, {});
    if Withholds(areas, unitId, walksRooms) {
      var area := WithheldIsTaken(areas, unitId, walksRooms);
    } else if !Stranded(areas, unitId, {}) {
      forall area ensures area in Eligible(areas, unitId) <==> area in ServerEligible(areas, unitId, walksRooms) {
        if area in ServerEligible(areas, unitId, walksRooms) {
          SameChoice(areas, unitId, walksRooms, area);
        }
        assert area in Eligible(areas, unitId) ==> area in Candidates(areas, unitId, {});
      }
    }
  }

  /** Withheld on a visit that walks no rooms: the building's thermostat, which is what such a visit is about. */
  lemma ThermostatIsWithheld(thermostat: Area, kitchen: Area)
    requires thermostat.approved && thermostat.unitId.None? && thermostat.source == Some("SYSTEM")
    requires kitchen.approved && kitchen.unitId.None? && kitchen.source == Some("MANUAL")
    ensures var areas := [thermostat, kitchen];
            && Withholds(areas, None, false) && !Withholds(areas, None, true) && !Stranded(areas, None, {})
            && thermostat in ServerEligible(areas, None, false) && thermostat !in Eligible(areas, None)
  {
    var areas := [thermostat, kitchen];
    FilterAll(areas, IsApproved());
    ScopedMembers(areas, None);
    assert thermostat in areas && InBuilding()(thermostat) && !IsRoom()(thermostat);
    DroppedIsWithheld(areas, None, thermostat);
  }

  /** Stranded: a unit with nothing but its thermostat, in a building with a kitchen, which is offered and refused. */
  lemma ThermostatStrandsItsUnit(unit: string, thermostat: Area, kitchen: Area, walksRooms: bool)
    requires unit != "" && thermostat.approved && thermostat.unitId == Some(unit) && thermostat.source == Some("SYSTEM")
    requires kitchen.approved && kitchen.unitId.None? && kitchen.source == Some("MANUAL") && kitchen.id != thermostat.id
    ensures var areas := [thermostat, kitchen];
            && Stranded(areas, Some(unit), {}) && kitchen in Candidates(areas, Some(unit), {})
            && AddInspectionAreas(areas, Some(unit), walksRooms, {}, {kitchen.id}) == Refused(InvalidAreaSelection)
  {
    var areas := [thermostat, kitchen];
    FilterAll(areas, IsApproved());
    LayoutMembers(areas);
    SupersededMeans(areas);
    assert thermostat in areas && InUnit(unit)(thermostat);
    assert kitchen in LayoutAreasFor(areas) && InBuilding()(kitchen);
    StrandedIsOffered(areas, Some(unit), {}, kitchen);
    StrandedIsRefused(areas, Some(unit), walksRooms, {}, kitchen);
    OthersIdIsRefused(areas, Some(unit), walksRooms, kitchen);
  }

  /** An id is refused when no area the server takes has it. */
  lemma OthersIdIsRefused(areas: seq<Area>, unitId: Option<string>, walksRooms: bool, area: Area)
    requires area !in ServerEligible(areas, unitId, walksRooms)
    requires forall other :: other in areas && other.id == area.id ==> other == area
    ensures AddInspectionAreas(areas, unitId, walksRooms, {}, {area.id}) == Refused(InvalidAreaSelection)
  {
    LayoutMembers(OnTheProperty(areas, unitId));
    ScopedMembers(Filter(areas, IsApproved()), unitId);
  }

  /** Withheld on a visit that walks rooms: a unit's standard bedroom, beside a porch from an imported report. */
  lemma PorchWithholdsTheBedroom(unit: string, bedroom: Area, porch: Area)
    requires unit != ""
    requires bedroom.approved && bedroom.unitId == Some(unit) && bedroom.source == Some("STANDARD_TEMPLATE")
    requires porch.approved && porch.unitId.None? && porch.source == Some("IMPORTED_REPORT")
    ensures var areas := [bedroom, porch];
            && Withholds(areas, Some(unit), true)
            && bedroom in ServerEligible(areas, Some(unit), true) && bedroom !in Eligible(areas, Some(unit))
  {
    var areas := [bedroom, porch];
    FilterAll(areas, IsApproved());
    ScopedMembers(areas, Some(unit));
    assert InUnit(unit)(bedroom) && bedroom in areas;
    assert porch in areas && IsWholeLayout()(porch);
    StandardIsWithheld(areas, Some(unit), bedroom);
  }

  /**
   * Submitting: whatever is ticked among the areas offered, the server adds it all and nothing else, and the dialog
   * opened again offers the rest.
   */
  lemma TickedIsAdded(
    areas: seq<Area>, unitId: Option<string>, walksRooms: bool, present: set<string>, ticked: set<string>)
    requires !Stranded(areas, unitId, present) && ticked != {}
    requires ticked <= set area | area in Candidates(areas, unitId, present) :: area.id
    ensures AddInspectionAreas(areas, unitId, walksRooms, present, ticked) == Ok(present + ticked)
    ensures Candidates(areas, unitId, present + ticked) == Filter(Candidates(areas, unitId, present), NotIn(ticked))
  {
    OfferedIsTakenExactly(areas, unitId, walksRooms, present);
    OfferedIsEligibleAndAbsent(areas, unitId, present);
    AddingTakesOffTheList(areas, unitId, present, ticked);
    var id :| id in ticked;
    assert id !in present;
  }

  // ----- Ticking

  function OtherThan(id: string): string -> bool {
    (value: string) => value != id
  }

  function Toggled(selected: seq<string>, id: string): seq<string> {
    if id in selected then Filter(selected, OtherThan(id)) else selected + [id]
  }

  function AfterToggling(ids: seq<string>): seq<string> {
    if |ids| == 0 then [] else Toggled(AfterToggling(ids[..|ids| - 1]), ids[|ids| - 1])
  }

  class Dialog {
    var selected: seq<string>

    constructor ()
      ensures selected == AfterToggling([])
    {
      selected := [];
    }

    method Toggle(id: string)
      modifies this
      ensures selected == Toggled(old(selected), id)
    {
      if id in selected {
        selected := Filter(selected, OtherThan(id));
      } else {
        selected := selected + [id];
      }
    }
  }

  lemma ToggledOnce(selected: seq<string>, id: string)
    requires Distinct(selected)
    ensures Distinct(Toggled(selected, id))
    ensures forall other :: other in Toggled(selected, id) <==> (other in selected) != (other == id)
  {
    FilterDistinct(selected, OtherThan(id));
  }

  /** After any run of ticks an area is selected just when it was ticked an odd number of times, and then once. */
  lemma {:induction false} TickedOddly(ids: seq<string>)
    ensures Distinct(AfterToggling(ids))
    ensures forall id :: id in AfterToggling(ids) <==> multiset(ids)[id] % 2 == 1
  {
    if |ids| == 0 {
    } else {
      var before, last := ids[..|ids| - 1], ids[|ids| - 1];
      TickedOddly(before);
      assert ids == before + [last];
      assert multiset(ids) == multiset(before)[last := multiset(before)[last] + 1];
      ToggledOnce(AfterToggling(before), last);
    }
  }
}
