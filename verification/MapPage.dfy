/**
 * The page that owns the camera's inputs: the selection callbacks of the live map page and the effects of
 * `TechnicianMap`, which turn a selection into a focus and give the camera back. Put in front of the director it
 * closes the system, so that following holds for everything a person can do on the page and not only for commits
 * that are assumed to behave.
 */
module MapPage {
  import opened Options
  import opened Sequences
  import opened Sorting
  import opened Text
  import opened MapBounds
  import opened MapCamera

  datatype Position = Position(technicianId: string, at: MapPoint)

  /** What the server and the socket say; `stops` is each technician's mapped work of the day. */
  datatype Data = Data(positions: seq<Position>, properties: seq<Building>, stops: map<string, seq<MapPoint>>)

  datatype Page = Page(
    selectedId: Option<string>,
    selectedPropertyId: Option<string>,
    followRequest: nat,
    focus: Focus,
    readerMoved: bool,
    recenterRequest: nat,
    mapId: Option<nat>,
    data: Data)

  datatype Event =
    | SelectTechnician(technician: Option<string>)
    | FocusTechnician(technicianId: string)
    | SelectProperty(property: Option<string>)
    | SelectStop(stop: Option<string>)
    | DayPicked
    | ClickMarker(markerId: string)
    | Recenter
    | MapMoved(event: CameraEvent)
    | SearchFramed
    | Delivered(data: Data)
    | MapReady(mapId: nat)

  function PositionOf(positions: seq<Position>, id: string): Option<MapPoint> {
    if |positions| == 0 then None
    else if positions[0].technicianId == id then Some(positions[0].at)
    else PositionOf(positions[1..], id)
  }

  /** It is the first position of that technician, and missing exactly when there is none. */
  lemma {:induction false} PositionIsTheFirst(positions: seq<Position>, id: string)
    ensures PositionOf(positions, id).None? <==> forall i :: 0 <= i < |positions| ==> positions[i].technicianId != id
    ensures forall i :: FirstOf(positions, id, i) ==> PositionOf(positions, id) == Some(positions[i].at)
  {
    if |positions| == 0 {
    } else if positions[0].technicianId != id {
      PositionIsTheFirst(positions[1..], id);
      assert forall i :: 0 < i < |positions| ==> positions[i] == positions[1..][i - 1];
      forall i | FirstOf(positions, id, i) ensures PositionOf(positions, id) == Some(positions[i].at) {
        assert forall j :: 0 <= j < i - 1 ==> positions[1..][j] == positions[j + 1];
        assert FirstOf(positions[1..], id, i - 1);
      }
    }
  }

  predicate FirstOf(positions: seq<Position>, id: string, i: int) {
    && 0 <= i < |positions| && positions[i].technicianId == id
    && forall j :: 0 <= j < i ==> positions[j].technicianId != id
  }

  function PositionPoints(positions: seq<Position>): (points: seq<MapPoint>)
    ensures |points| == |positions| && forall i :: 0 <= i < |points| ==> points[i] == positions[i].at
  {
    seq(|positions|, i requires 0 <= i < |positions| => positions[i].at)
  }

  function BuildingPoints(buildings: seq<Building>): (points: seq<MapPoint>)
    ensures |points| == |buildings| && forall i :: 0 <= i < |points| ==> points[i] == buildings[i].at
  {
    seq(|buildings|, i requires 0 <= i < |buildings| => buildings[i].at)
  }

  function TechnicianIds(positions: seq<Position>): (ids: seq<string>)
    ensures |ids| == |positions| && forall i :: 0 <= i < |ids| ==> ids[i] == positions[i].technicianId
  {
    seq(|positions|, i requires 0 <= i < |positions| => positions[i].technicianId)
  }

  function PropertyIds(buildings: seq<Building>): (ids: seq<string>)
    ensures |ids| == |buildings| && forall i :: 0 <= i < |ids| ==> ids[i] == buildings[i].id
  {
    seq(|buildings|, i requires 0 <= i < |buildings| => buildings[i].id)
  }

  /** The ids the key is made of: positions have no part in it. */
  function ThingsOn(data: Data): seq<string> {
    StableSort(TechnicianIds(data.positions), TextOrder()) + StableSort(PropertyIds(data.properties), TextOrder())
  }

  function FitKey(data: Data): string {
    Join(ThingsOn(data), '|')
  }

  function StopsOf(page: Page): seq<MapPoint> {
    if page.selectedId.Some? && page.selectedId.value in page.data.stops then page.data.stops[page.selectedId.value]
    else []
  }

  function PropsOf(page: Page): Props {
    Props(
      page.mapId,
      StopsOf(page),
      FitKey(page.data),
      page.focus,
      if page.selectedId.Some? then PositionOf(page.data.positions, page.selectedId.value) else None,
      PointsToFit(BuildingPoints(page.data.properties), PositionPoints(page.data.positions)),
      page.data.properties,
      page.readerMoved,
      page.recenterRequest)
  }

  /** The handler of one event, before any effect has run. */
  function Handle(page: Page, event: Event): Page
    decreases event.ClickMarker?
  {
    match event
    case SelectTechnician(technician) => page.(selectedId := technician, selectedPropertyId := None)
    case FocusTechnician(id) =>
      page.(selectedId := Some(id), selectedPropertyId := None, followRequest := page.followRequest + 1)
    case SelectProperty(property) =>
      page.(selectedPropertyId := property, selectedId := if property.Some? then None else page.selectedId)
    case SelectStop(stop) => page.(selectedPropertyId := stop)
    case DayPicked => page.(selectedId := None)
    case ClickMarker(id) =>
      if page.selectedId != Some(id) then Handle(page, SelectTechnician(Some(id)))
      else if page.focus.Property? then Handle(page, FocusTechnician(id))
      else Handle(page, Recenter)
    case Recenter => page.(readerMoved := false, recenterRequest := page.recenterRequest + 1)
    case MapMoved(e) => if ReaderTookOver(e) then page.(readerMoved := true) else page
    case SearchFramed => page.(readerMoved := true)
    case Delivered(data) => page.(data := data)
    case MapReady(id) => page.(mapId := Some(id))
  }

  /** The three effects of `TechnicianMap`, each run when the selection it depends on is not the one before. */
  function Settle(before: Page, now: Page): Page {
    var a :=
      if before.selectedId == now.selectedId then now
      else if now.selectedId.Some? then now.(focus := Technician(now.selectedId.value), readerMoved := false)
      else if now.selectedPropertyId.Some? then now.(focus := Property(now.selectedPropertyId.value))
      else now.(focus := Overview);
    var b :=
      if before.selectedPropertyId == now.selectedPropertyId then a
      else if now.selectedPropertyId.Some? then
        a.(focus := Property(now.selectedPropertyId.value), readerMoved := false)
      else if now.selectedId.Some? then a.(focus := Technician(now.selectedId.value), readerMoved := false)
      else a.(focus := Overview);
    if before.followRequest == now.followRequest || now.selectedId.None? then b
    else b.(focus := Technician(now.selectedId.value), readerMoved := false, recenterRequest := b.recenterRequest + 1)
  }

  function Start(data: Data): Page {
    Page(None, None, 0, Overview, false, 0, None, data)
  }

  function PageAfter(data: Data, events: seq<Event>): Page {
    if |events| == 0 then Start(data)
    else
      var before := PageAfter(data, events[..|events| - 1]);
      Settle(before, Handle(before, events[|events| - 1]))
  }

  /** The commits a history of events makes: the handler's, then the one its effects ask for. */
  function Commits(data: Data, events: seq<Event>): seq<Props> {
    if |events| == 0 then [PropsOf(Start(data))]
    else
      var before := PageAfter(data, events[..|events| - 1]);
      var handled := Handle(before, events[|events| - 1]);
      Commits(data, events[..|events| - 1]) + [PropsOf(handled), PropsOf(Settle(before, handled))]
  }

  /** The most recent pick, which is what the camera is about once the effects have run. */
  function Picked(selectedId: Option<string>, selectedPropertyId: Option<string>): Focus {
    if selectedPropertyId.Some? then Property(selectedPropertyId.value)
    else if selectedId.Some? then Technician(selectedId.value)
    else Overview
  }

  /** One event: the focus stays the pick, and the camera is given back only with a new pick or a Re-center. */
  lemma {:induction false} EventKeepsFaith(page: Page, event: Event)
    requires page.focus == Picked(page.selectedId, page.selectedPropertyId)
    ensures var handled := Handle(page, event);
            var settled := Settle(page, handled);
            && settled.focus == Picked(settled.selectedId, settled.selectedPropertyId)
            && handled.focus == page.focus
            && (page.readerMoved && !handled.readerMoved ==> handled.recenterRequest != page.recenterRequest)
            && (handled.readerMoved && !settled.readerMoved ==>
                  settled.focus != handled.focus || settled.recenterRequest != handled.recenterRequest)
    decreases event.ClickMarker?
  {
    match event
    case ClickMarker(id) =>
      if page.selectedId != Some(id) {
        EventKeepsFaith(page, SelectTechnician(Some(id)));
      } else if page.focus.Property? {
        EventKeepsFaith(page, FocusTechnician(id));
      } else {
        EventKeepsFaith(page, Recenter);
      }
    case _ =>
  }

  /** The focus never drifts from the selection, whatever was clicked and in whatever order. */
  lemma {:induction false} FocusIsThePick(data: Data, events: seq<Event>)
    ensures var page := PageAfter(data, events);
            page.focus == Picked(page.selectedId, page.selectedPropertyId)
  {
    if |events| == 0 {
    } else {
      FocusIsThePick(data, events[..|events| - 1]);
      EventKeepsFaith(PageAfter(data, events[..|events| - 1]), events[|events| - 1]);
    }
  }

  lemma {:induction false} CommitsEndSettled(data: Data, events: seq<Event>)
    ensures |Commits(data, events)| == 2 * |events| + 1
    ensures Last(Commits(data, events)) == PropsOf(PageAfter(data, events))
  {
    if |events| == 0 {
    } else {
      CommitsEndSettled(data, events[..|events| - 1]);
    }
  }

  /** The page gives the camera back only with a new pick or a Re-center: the discipline following rests on. */
  lemma {:induction false} PageIsDisciplined(data: Data, events: seq<Event>)
    ensures Disciplined(Commits(data, events))
  {
    if |events| == 0 {
    } else {
      var earlier := events[..|events| - 1];
      PageIsDisciplined(data, earlier);
      CommitsEndSettled(data, earlier);
      FocusIsThePick(data, earlier);
      var run, all := Commits(data, earlier), Commits(data, events);
      var before := PageAfter(data, earlier);
      var handled := Handle(before, events[|events| - 1]);
      EventKeepsFaith(before, events[|events| - 1]);
      forall i | 0 < i < |all| && all[i - 1].readerMoved && !all[i].readerMoved
        ensures all[i - 1].focus != all[i].focus || all[i - 1].recenterRequest != all[i].recenterRequest
      {
        if i < |run| {
          assert all[i] == run[i] && all[i - 1] == run[i - 1];
        } else if i == |run| {
          assert all[i - 1] == PropsOf(before) && all[i] == PropsOf(handled);
        } else {
          assert all[i - 1] == PropsOf(handled) && all[i] == PropsOf(Settle(before, handled));
        }
      }
    }
  }

  /**
   * Whatever a person does on the page, whenever a technician is what the camera is about, has a position on the map,
   * and the reader has not taken the map since, the map was last told to be where that technician is.
   */
  lemma PageFollowsTechnician(data: Data, events: seq<Event>, id: string, i: nat)
    requires var page := PageAfter(data, events);
             && page.mapId.Some? && !page.readerMoved && page.focus == Technician(id)
             && FirstOf(page.data.positions, id, i)
    ensures CenteredOn(NewestCommand(Commits(data, events)), PageAfter(data, events).data.positions[i].at)
  {
    FocusIsThePick(data, events);
    CommitsEndSettled(data, events);
    PageIsDisciplined(data, events);
    PositionIsTheFirst(PageAfter(data, events).data.positions, id);
    FollowsTechnician(Commits(data, events));
  }

  // ----- What each thing a person does asks for

  /** What is selected after an event and its effects: each pick lets go of what it replaces and of nothing else. */
  lemma SelectionAfter(page: Page, event: Event)
    requires page.focus == Picked(page.selectedId, page.selectedPropertyId)
    ensures var after := Settle(page, Handle(page, event));
            (after.selectedId, after.selectedPropertyId) ==
            match event
            case SelectTechnician(technician) => (technician, None)
            case FocusTechnician(id) => (Some(id), None)
            case ClickMarker(id) => (Some(id), None)
            case SelectProperty(Some(id)) => (None, Some(id))
            case SelectProperty(None) => (page.selectedId, None)
            case SelectStop(stop) => (page.selectedId, stop)
            case DayPicked => (None, page.selectedPropertyId)
            case _ => (page.selectedId, page.selectedPropertyId)
  {
  }

  /** A technician is asked for: picked anew, asked for again, or clicked on the map. */
  predicate AsksForTechnician(page: Page, event: Event, id: string) {
    || (event == SelectTechnician(Some(id)) && page.selectedId != Some(id))
    || event == FocusTechnician(id)
    || event == ClickMarker(id)
  }

  /** A property is asked for: picked, or picked as a stop. */
  predicate AsksForProperty(page: Page, event: Event, id: string) {
    (event == SelectProperty(Some(id)) || event == SelectStop(Some(id))) && page.selectedPropertyId != Some(id)
  }

  /** Asking takes the camera from the reader, and one of the two commits asks the director for it. */
  lemma AskingTakesTheCamera(page: Page, event: Event, id: string)
    requires page.focus == Picked(page.selectedId, page.selectedPropertyId)
    requires AsksForTechnician(page, event, id) || AsksForProperty(page, event, id)
    ensures var handled := Handle(page, event);
            var after := Settle(page, handled);
            && !after.readerMoved && after.mapId == page.mapId && handled.mapId == page.mapId && after.data == page.data
            && after.focus == (if AsksForTechnician(page, event, id) then Technician(id) else Property(id))
            && (after.focus != handled.focus || after.recenterRequest != handled.recenterRequest
                || (handled.recenterRequest != page.recenterRequest && handled == after))
  {
  }

  /** Gestures and a search take the map from the page, Re-center gives it back, and deliveries do neither. */
  lemma GesturesTakeTheMap(page: Page, event: Event)
    ensures var after := Settle(page, Handle(page, event));
            match event
            case MapMoved(e) => after == page.(readerMoved := page.readerMoved || (e.byPerson && !e.onOverlay))
            case SearchFramed => after == page.(readerMoved := true)
            case Recenter => after == page.(readerMoved := false, recenterRequest := page.recenterRequest + 1)
            case Delivered(data) => after == page.(data := data)
            case MapReady(id) => after == page.(mapId := Some(id))
            case _ => after.mapId == page.mapId && after.data == page.data
  {
  }

  /** One more commit of the same thing tells the map nothing. */
  lemma {:induction false} SameAgainIsSilent(run: seq<Props>)
    requires |run| > 1 && Last(Front(run)) == Last(run)
    ensures LastCommands(run) == [] && NewestCommand(run) == NewestCommand(Front(run))
  {
    StepRemembersDeps(Front(run));
  }

  /** What the map was last told after two commits, of which one asked and none followed it with anything new. */
  lemma {:induction false} EitherAsked(run: seq<Props>, p: Props, q: Props) returns (asked: seq<Props>)
    requires |run| > 0 && (p.focus != q.focus || p.recenterRequest != q.recenterRequest
                           || (p == q && p.recenterRequest != Last(run).recenterRequest))
    ensures |asked| > 0 && Asked(asked) && Last(asked) == q && NewestCommand(asked) == NewestCommand(run + [p] + [q])
  {
    var middle := run + [p];
    var all := middle + [q];
    assert Front(all) == middle && Front(middle) == run;
    if p.focus != q.focus || p.recenterRequest != q.recenterRequest {
      asked := all;
    } else {
      SameAgainIsSilent(all);
      asked := middle;
    }
  }

  /** After an event that asks, what the map was last told is what the commit that asked was answered with. */
  lemma {:induction false} AskedFor(data: Data, events: seq<Event>, event: Event, id: string)
    returns (asked: seq<Props>)
    requires var page := PageAfter(data, events);
             AsksForTechnician(page, event, id) || AsksForProperty(page, event, id)
    ensures |asked| > 0 && Asked(asked) && Last(asked) == PropsOf(PageAfter(data, events + [event]))
    ensures NewestCommand(asked) == NewestCommand(Commits(data, events + [event]))
  {
    var page := PageAfter(data, events);
    var handled := Handle(page, event);
    FocusIsThePick(data, events);
    CommitsEndSettled(data, events);
    OneMoreEvent(data, events, event);
    AskingTakesTheCamera(page, event, id);
    asked := EitherAsked(Commits(data, events), PropsOf(handled), PropsOf(Settle(page, handled)));
  }

  /** What a technician asked for is answered with when they are nowhere: a frame of the day's work. */
  lemma {:induction false} NowhereShowsTheWork(run: seq<Props>)
    requires |run| > 0 && Asked(run) && Last(run).mapId.Some? && Last(run).focus.Technician?
    requires Last(run).followed.None? && |Last(run).fallback| > 0
    ensures NewestCommand(run).Some? && Frames(NewestCommand(run).value, Last(run).fallback, 64)
  {
    PickIsVisited(run);
  }

  /** A technician asked for is the camera's subject, and the reader has given it back. */
  lemma {:induction false} AskedTechnicianIsShown(data: Data, events: seq<Event>, event: Event, id: string)
    requires AsksForTechnician(PageAfter(data, events), event, id)
    ensures var before, page := PageAfter(data, events), PageAfter(data, events + [event]);
            && page.focus == Technician(id) && page.selectedId == Some(id) && !page.readerMoved
            && page.mapId == before.mapId && page.data == before.data
  {
    FocusIsThePick(data, events);
    OneMoreEvent(data, events, event);
    AskingTakesTheCamera(PageAfter(data, events), event, id);
    SelectionAfter(PageAfter(data, events), event);
  }

  /** A technician asked for is gone to, if they have a position. */
  lemma {:induction false} PageGoesToTechnician(data: Data, events: seq<Event>, event: Event, id: string, i: nat)
    requires AsksForTechnician(PageAfter(data, events), event, id) && PageAfter(data, events).mapId.Some?
    requires FirstOf(PageAfter(data, events).data.positions, id, i)
    ensures CenteredOn(NewestCommand(Commits(data, events + [event])), PageAfter(data, events).data.positions[i].at)
  {
    AskedTechnicianIsShown(data, events, event, id);
    PageFollowsTechnician(data, events + [event], id, i);
  }

  /** The day's work of someone who has no position is shown instead. */
  lemma {:induction false} PageShowsTheWork(data: Data, events: seq<Event>, event: Event, id: string)
    requires AsksForTechnician(PageAfter(data, events), event, id) && PageAfter(data, events).mapId.Some?
    requires var now := PageAfter(data, events).data;
             && (forall i :: 0 <= i < |now.positions| ==> now.positions[i].technicianId != id)
             && id in now.stops && |now.stops[id]| > 0
    ensures var newest := NewestCommand(Commits(data, events + [event]));
            newest.Some? && Frames(newest.value, PageAfter(data, events).data.stops[id], 64)
  {
    AskedTechnicianIsShown(data, events, event, id);
    PositionIsTheFirst(PageAfter(data, events).data.positions, id);
    var asked := AskedFor(data, events, event, id);
    NowhereShowsTheWork(asked);
  }

  /** A property asked for is gone to, if it is on the map: the first one with that id. */
  lemma {:induction false} PageGoesToProperty(data: Data, events: seq<Event>, event: Event, id: string, i: nat)
    requires AsksForProperty(PageAfter(data, events), event, id) && PageAfter(data, events).mapId.Some?
    requires var properties := PageAfter(data, events).data.properties;
             && i < |properties| && properties[i].id == id && forall j :: 0 <= j < i ==> properties[j].id != id
    ensures var newest := NewestCommand(Commits(data, events + [event]));
            newest.Some? && GoesTo(newest.value, PageAfter(data, events).data.properties[i].at, 18)
  {
    var page := PageAfter(data, events);
    FocusIsThePick(data, events);
    AskingTakesTheCamera(page, event, id);
    OneMoreEvent(data, events, event);
    var asked := AskedFor(data, events, event, id);
    PropertyIsVisited(asked, id, i);
  }

  lemma {:induction false} PropertyIsVisited(run: seq<Props>, id: string, i: nat)
    requires |run| > 0 && Asked(run) && Last(run).mapId.Some? && Last(run).focus == Property(id)
    requires var properties := Last(run).properties;
             && i < |properties| && properties[i].id == id && forall j :: 0 <= j < i ==> properties[j].id != id
    ensures NewestCommand(run).Some? && GoesTo(NewestCommand(run).value, Last(run).properties[i].at, 18)
  {
    PickIsVisited(run);
    assert Last(run).properties[i] in Last(run).properties;
  }

  /** Everything that is not somebody asking for a place: deliveries, gestures, searches, and letting go for good. */
  predicate AsksForNothing(page: Page, event: Event) {
    match event
    case Delivered(_) => true
    case MapMoved(_) => true
    case SearchFramed => true
    case SelectTechnician(technician) => technician.None?
    case SelectProperty(property) => property.None? && page.selectedId.None?
    case SelectStop(stop) => stop.None? && page.selectedId.None?
    case DayPicked => true
    case _ => false
  }

  /** Such an event leaves the reader in charge, and neither of its commits asks the camera for anything. */
  lemma NothingIsAsked(page: Page, event: Event)
    requires page.focus == Picked(page.selectedId, page.selectedPropertyId)
    requires page.readerMoved && AsksForNothing(page, event)
    ensures var handled := Handle(page, event);
            var settled := Settle(page, handled);
            && handled.readerMoved && settled.readerMoved
            && handled.focus == page.focus && handled.mapId == page.mapId
            && handled.recenterRequest == page.recenterRequest
            && settled.mapId == page.mapId && settled.recenterRequest == page.recenterRequest
            && (settled.focus == page.focus || settled.focus.Overview?)
  {
  }

  /** A commit that asks for nothing, or shows the overview, while the reader has the camera: it stays where it is. */
  lemma StaysPut(run: seq<Props>, p: Props)
    requires |run| > 0 && p.readerMoved
    requires p.focus.Overview?
             || (&& p.focus == Last(run).focus && p.mapId == Last(run).mapId
                 && p.recenterRequest == Last(run).recenterRequest)
    ensures LastCommands(run + [p]) == []
  {
    assert Front(run + [p]) == run;
    ReaderKeepsCamera(run + [p]);
  }

  /** Once the reader has moved the map, no such event moves the camera or takes it back from them. */
  lemma PageLeavesReaderAlone(data: Data, events: seq<Event>, event: Event)
    requires PageAfter(data, events).readerMoved && AsksForNothing(PageAfter(data, events), event)
    ensures PageAfter(data, events + [event]).readerMoved
    ensures var run := Commits(data, events + [event]);
            LastCommands(Front(run)) == [] && LastCommands(run) == []
  {
    var before := PageAfter(data, events);
    assert (events + [event])[..|events|] == events;
    var handled := Handle(before, event);
    var run := Commits(data, events);
    FocusIsThePick(data, events);
    CommitsEndSettled(data, events);
    NothingIsAsked(before, event);
    StaysPut(run, PropsOf(handled));
    var middle := run + [PropsOf(handled)];
    StaysPut(middle, PropsOf(Settle(before, handled)));
    assert Commits(data, events + [event]) == middle + [PropsOf(Settle(before, handled))];
    assert Front(Commits(data, events + [event])) == middle;
  }

  // ----- The overview

  /** Ids as the server gives them: never empty. */
  ghost predicate Named(data: Data) {
    && (forall id :: id in TechnicianIds(data.positions) ==> id != "")
    && (forall id :: id in PropertyIds(data.properties) ==> id != "")
  }

  predicate Populated(data: Data) {
    |data.positions| > 0 || |data.properties| > 0
  }

  ghost predicate NamedThroughout(data: Data, events: seq<Event>) {
    Named(data) && forall i :: 0 <= i < |events| && events[i].Delivered? ==> Named(events[i].data)
  }

  lemma ThingsAreTheIds(data: Data)
    ensures |ThingsOn(data)| == |data.positions| + |data.properties|
    ensures forall id :: id in ThingsOn(data) <==>
                         id in TechnicianIds(data.positions) || id in PropertyIds(data.properties)
  {
    TextOrderIsTotal();
    StableSortMembers(TechnicianIds(data.positions), TextOrder());
    StableSortMembers(PropertyIds(data.properties), TextOrder());
  }

  /** The key alone says whether there is anything to frame. */
  lemma KeySaysWhether(page: Page)
    requires Named(page.data)
    ensures |PropsOf(page).points| > 0 <==> Populated(page.data)
    ensures PropsOf(page).fitKey != "" <==> Populated(page.data)
  {
    SomethingToFrame(BuildingPoints(page.data.properties), PositionPoints(page.data.positions));
    ThingsAreTheIds(page.data);
    var things := ThingsOn(page.data);
    if |things| > 0 {
      assert things[0] in things;
    }
  }

  lemma {:induction false} DataStaysNamed(data: Data, events: seq<Event>)
    requires NamedThroughout(data, events)
    ensures Named(PageAfter(data, events).data)
  {
    if |events| == 0 {
    } else {
      var front := events[..|events| - 1];
      assert forall i :: 0 <= i < |front| ==> front[i] == events[i];
      DataStaysNamed(data, front);
      HandlingKeepsOrDelivers(PageAfter(data, front), events[|events| - 1]);
    }
  }

  lemma HandlingKeepsOrDelivers(page: Page, event: Event)
    ensures var handled := Handle(page, event);
            && handled.data == (if event.Delivered? then event.data else page.data)
            && Settle(page, handled).data == handled.data
  {
  }

  /** In every commit of the page. */
  lemma {:induction false} KeysSayWhether(data: Data, events: seq<Event>)
    requires NamedThroughout(data, events)
    ensures forall p :: p in Commits(data, events) ==> (|p.points| > 0 <==> p.fitKey != "")
  {
    if |events| == 0 {
      KeySaysWhether(Start(data));
    } else {
      var front, last := events[..|events| - 1], events[|events| - 1];
      assert forall i :: 0 <= i < |front| ==> front[i] == events[i];
      assert last.Delivered? ==> Named(last.data);
      KeysSayWhether(data, front);
      DataStaysNamed(data, front);
      var before := PageAfter(data, front);
      HandlingKeepsOrDelivers(before, last);
      KeySaysWhether(Handle(before, last));
      KeySaysWhether(Settle(before, Handle(before, last)));
    }
  }

  lemma PageDecidesEmptiness(data: Data, events: seq<Event>)
    requires NamedThroughout(data, events)
    ensures KeyDecidesEmptiness(Commits(data, events))
  {
    var run := Commits(data, events);
    KeysSayWhether(data, events);
    assert forall i :: 0 <= i < |run| ==> run[i] in run;
  }

  /** Nothing is picked, there is a map, the reader has not taken it, and something is on it. */
  predicate ShowsOverview(page: Page) {
    && page.selectedId.None? && page.selectedPropertyId.None? && page.mapId.Some?
    && !page.readerMoved && Populated(page.data)
  }

  /** Then, whatever has been done on the page, the overview was last framed for who and what is on the map now. */
  lemma PageFramesTheOverview(data: Data, events: seq<Event>)
    requires NamedThroughout(data, events) && ShowsOverview(PageAfter(data, events))
    ensures After(Commits(data, events)).framedFor == Some(FitKey(PageAfter(data, events).data))
  {
    FocusIsThePick(data, events);
    CommitsEndSettled(data, events);
    PageIsDisciplined(data, events);
    PageDecidesEmptiness(data, events);
    DataStaysNamed(data, events);
    KeySaysWhether(PageAfter(data, events));
    OverviewIsFramedForWhatIsThere(Commits(data, events));
  }

  /** Once something has been delivered, no later delivery is of nothing. */
  ghost predicate StaysPopulated(data: Data, events: seq<Event>) {
    forall i :: 0 <= i < |events| && events[i].Delivered? && Populated(PageAfter(data, events[..i]).data) ==>
                  Populated(events[i].data)
  }

  lemma {:induction false} PageIsNeverEmptied(data: Data, events: seq<Event>)
    requires NamedThroughout(data, events) && StaysPopulated(data, events)
    ensures NeverEmptied(Commits(data, events))
  {
    if |events| == 0 {
    } else {
      var front, last := events[..|events| - 1], events[|events| - 1];
      assert forall i :: 0 <= i < |front| ==> front[i] == events[i] && front[..i] == events[..i];
      PageIsNeverEmptied(data, front);
      CommitsEndSettled(data, front);
      DataStaysNamed(data, front);
      var before := PageAfter(data, front);
      var handled := Handle(before, last);
      HandlingKeepsOrDelivers(before, last);
      KeySaysWhether(before);
      KeySaysWhether(handled);
      KeySaysWhether(Settle(before, handled));
      NeverEmptiedGrows(Commits(data, front), PropsOf(handled), PropsOf(Settle(before, handled)));
    }
  }

  lemma NeverEmptiedGrows(run: seq<Props>, next: Props, last: Props)
    requires |run| > 0 && NeverEmptied(run)
    requires |Last(run).points| > 0 ==> |next.points| > 0
    requires |next.points| > 0 ==> |last.points| > 0
    ensures NeverEmptied(run + [next, last])
  {
    var all := run + [next, last];
    forall i | 0 < i < |all| && |all[i - 1].points| > 0 ensures |all[i].points| > 0 {
      if i < |run| {
        assert all[i] == run[i] && all[i - 1] == run[i - 1];
      }
    }
  }

  /** And the overview is on screen: framing who and what is on the map now is the last thing the map was told. */
  lemma PageShowsTheOverview(data: Data, events: seq<Event>)
    requires NamedThroughout(data, events) && StaysPopulated(data, events) && ShowsOverview(PageAfter(data, events))
    ensures Shows(Commits(data, events), FitKey(PageAfter(data, events).data))
  {
    FocusIsThePick(data, events);
    CommitsEndSettled(data, events);
    PageIsDisciplined(data, events);
    PageDecidesEmptiness(data, events);
    PageIsNeverEmptied(data, events);
    DataStaysNamed(data, events);
    KeySaysWhether(PageAfter(data, events));
    OverviewStaysOnScreen(Commits(data, events));
  }

  /** Exactly when it is on screen: framed since the last thing asked for, or not moved away from until then. */
  lemma PageShowsTheOverviewExactly(data: Data, events: seq<Event>)
    requires NamedThroughout(data, events) && ShowsOverview(PageAfter(data, events))
    ensures LastFraming(Commits(data, events)).Some?
    ensures var run := Commits(data, events);
            var framed, asked := LastFraming(run).value, LastAsked(run);
            Shows(run, FitKey(PageAfter(data, events).data)) <==> framed >= asked || SilentBetween(run, framed, asked)
  {
    FocusIsThePick(data, events);
    CommitsEndSettled(data, events);
    PageIsDisciplined(data, events);
    PageDecidesEmptiness(data, events);
    DataStaysNamed(data, events);
    KeySaysWhether(PageAfter(data, events));
    OverviewShowsExactly(Commits(data, events));
  }

  lemma {:induction false} OneMoreEvent(data: Data, events: seq<Event>, event: Event)
    ensures var before := PageAfter(data, events);
            var handled := Handle(before, event);
            && PageAfter(data, events + [event]) == Settle(before, handled)
            && Commits(data, events + [event]) ==
               Commits(data, events) + [PropsOf(handled)] + [PropsOf(Settle(before, handled))]
  {
    var all := events + [event];
    assert |all| > 0 && all[..|all| - 1] == events && all[|all| - 1] == event;
    var before := PageAfter(data, events);
    var handled := Handle(before, event);
    assert [PropsOf(handled), PropsOf(Settle(before, handled))] ==
           [PropsOf(handled)] + [PropsOf(Settle(before, handled))];
  }

  /** A history has led to this page, and left the map at a place with the overview counting as framed for a key. */
  ghost predicate LeftAt(data: Data, events: seq<Event>, page: Page, at: MapPoint, key: string) {
    && PageAfter(data, events) == page
    && CenteredOn(NewestCommand(Commits(data, events)), at)
    && After(Commits(data, events)).framedFor == Some(key)
  }

  /** An event both of whose commits find nothing to show leaves the map where it stands. */
  lemma {:induction false} SilentEvent(
    data: Data, events: seq<Event>, event: Event, page: Page, at: MapPoint, key: string, handled: Page, settled: Page)
    requires LeftAt(data, events, page, at, key)
    requires handled == Handle(page, event) && settled == Settle(page, handled)
    requires handled.mapId == page.mapId && handled.recenterRequest == page.recenterRequest
    requires settled.mapId == page.mapId && settled.recenterRequest == page.recenterRequest
    requires Silent(page, handled, key) && Silent(handled, settled, key)
    ensures LeftAt(data, events + [event], settled, at, key)
  {
    var run := Commits(data, events);
    CommitsEndSettled(data, events);
    OneMoreEvent(data, events, event);
    OneMoreSilent(run, PropsOf(handled));
    OneMoreSilent(run + [PropsOf(handled)], PropsOf(settled));
  }

  /** From one commit's page to the next there is nothing to show. */
  predicate Silent(page: Page, next: Page, key: string) {
    || (next.focus.Technician? && next.focus == page.focus && PropsOf(next).followed.None?)
    || (next.focus.Overview? && |PropsOf(next).points| == 0)
    || (next.focus.Overview? && next.focus == page.focus && FitKey(next.data) == key)
  }

  /** A technician is being followed. */
  function Followed(data: Data, mapId: nat, id: string): Page {
    Page(Some(id), None, 0, Technician(id), false, 0, Some(mapId), data)
  }

  /** Nothing is picked. */
  function Unpicked(data: Data, mapId: nat): Page {
    Page(None, None, 0, Overview, false, 0, Some(mapId), data)
  }

  lemma {:induction false} PickIsFollowed(full: Data, id: string, i: nat, mapId: nat)
    requires Named(full) && FirstOf(full.positions, id, i)
    ensures LeftAt(full, [MapReady(mapId), SelectTechnician(Some(id))], Followed(full, mapId, id),
                   full.positions[i].at, FitKey(full))
  {
    var first, second := MapReady(mapId), SelectTechnician(Some(id));
    var ready := Unpicked(full, mapId);
    OneMoreEvent(full, [], first);
    assert [] + [first] == [first];
    assert PageAfter(full, [first]) == ready;
    PageFramesTheOverview(full, [first]);
    CommitsEndSettled(full, [first]);
    OneMoreEvent(full, [first], second);
    assert [first] + [second] == [first, second];
    FollowedIsFramed(full, [first], id, mapId);
    PageGoesToTechnician(full, [first], second, id, i);
  }

  /** Picking a technician leaves what was framed last as it is. */
  lemma {:induction false} FollowedIsFramed(full: Data, events: seq<Event>, id: string, mapId: nat)
    requires PageAfter(full, events) == Unpicked(full, mapId)
    ensures After(Commits(full, events + [SelectTechnician(Some(id))])).framedFor ==
            After(Commits(full, events)).framedFor
  {
    var run := Commits(full, events);
    var handled := Unpicked(full, mapId).(selectedId := Some(id));
    CommitsEndSettled(full, events);
    OneMoreEvent(full, events, SelectTechnician(Some(id)));
    OneMoreSilent(run, PropsOf(handled));
    var next := run + [PropsOf(handled)];
    var last := PropsOf(Followed(full, mapId, id));
    assert Front(next + [last]) == next;
    FramedForFollowsFraming(After(next), last);
  }

  /** Everything is taken off the map while they are followed. */
  lemma {:induction false} EmptyingIsSilent(
    full: Data, events: seq<Event>, none: Data, id: string, at: MapPoint, mapId: nat, key: string)
    requires LeftAt(full, events, Followed(full, mapId, id), at, key) && !Populated(none)
    ensures LeftAt(full, events + [Delivered(none)], Followed(none, mapId, id), at, key)
  {
    var emptied := Followed(none, mapId, id);
    SilentEvent(full, events, Delivered(none), Followed(full, mapId, id), at, key, emptied, emptied);
  }

  /** They are let go of, which asks for an overview of nothing. */
  lemma {:induction false} LettingGoIsSilent(
    full: Data, events: seq<Event>, none: Data, id: string, at: MapPoint, mapId: nat, key: string)
    requires LeftAt(full, events, Followed(none, mapId, id), at, key) && !Populated(none)
    ensures LeftAt(full, events + [SelectTechnician(None)], Unpicked(none, mapId), at, key)
  {
    var handled := Followed(none, mapId, id).(selectedId := None);
    SomethingToFrame(BuildingPoints(none.properties), PositionPoints(none.positions));
    SilentEvent(full, events, SelectTechnician(None), Followed(none, mapId, id), at, key,
                handled, Unpicked(none, mapId));
  }

  /** What was framed last is put back. */
  lemma {:induction false} PuttingBackIsSilent(
    full: Data, events: seq<Event>, none: Data, at: MapPoint, mapId: nat)
    requires LeftAt(full, events, Unpicked(none, mapId), at, FitKey(full))
    ensures LeftAt(full, events + [Delivered(full)], Unpicked(full, mapId), at, FitKey(full))
  {
    var back := Unpicked(full, mapId);
    SilentEvent(full, events, Delivered(full), Unpicked(none, mapId), at, FitKey(full), back, back);
  }

  /** A technician is picked, everything is taken off the map, they are let go of, and everything is put back. */
  function Emptying(full: Data, none: Data, id: string, mapId: nat): seq<Event> {
    [MapReady(mapId), SelectTechnician(Some(id))] + [Delivered(none)] + [SelectTechnician(None)] + [Delivered(full)]
  }

  lemma {:induction false} EmptyingIsLeftAt(full: Data, none: Data, id: string, i: nat, mapId: nat)
    requires Named(full) && FirstOf(full.positions, id, i) && !Populated(none)
    ensures LeftAt(full, Emptying(full, none, id, mapId), Unpicked(full, mapId), full.positions[i].at, FitKey(full))
  {
    var picked, at := [MapReady(mapId), SelectTechnician(Some(id))], full.positions[i].at;
    PickIsFollowed(full, id, i, mapId);
    EmptyingIsSilent(full, picked, none, id, at, mapId, FitKey(full));
    LettingGoIsSilent(full, picked + [Delivered(none)], none, id, at, mapId, FitKey(full));
    PuttingBackIsSilent(full, picked + [Delivered(none)] + [SelectTechnician(None)], none, at, mapId);
  }

  lemma {:induction false} EmptyingEmpties(full: Data, none: Data, id: string, i: nat, mapId: nat)
    requires Named(full) && FirstOf(full.positions, id, i) && !Populated(none)
    ensures !StaysPopulated(full, Emptying(full, none, id, mapId))
  {
    var picked := [MapReady(mapId), SelectTechnician(Some(id))];
    var events := Emptying(full, none, id, mapId);
    PickIsFollowed(full, id, i, mapId);
    assert events[..2] == picked && events[2] == Delivered(none);
  }

  /**
   * Not emptying the page is needed. Whoever and whatever is on the map, if it is emptied between picking a technician
   * and letting go of them and then comes back, the overview counts as framed for it, and the map still stands where
   * the technician was.
   */
  lemma {:induction false} EmptiedPageStaysBehind(full: Data, none: Data, id: string, i: nat, mapId: nat)
    requires Named(full) && FirstOf(full.positions, id, i) && !Populated(none)
    ensures var events := Emptying(full, none, id, mapId);
            && NamedThroughout(full, events) && !StaysPopulated(full, events)
            && ShowsOverview(PageAfter(full, events)) && PageAfter(full, events).data == full
            && After(Commits(full, events)).framedFor == Some(FitKey(full))
            && CenteredOn(NewestCommand(Commits(full, events)), full.positions[i].at)
            && !Shows(Commits(full, events), FitKey(full))
  {
    EmptyingIsLeftAt(full, none, id, i, mapId);
    EmptyingEmpties(full, none, id, i, mapId);
  }

  // ----- The key

  /** Ids that can be told apart in a key: not empty, without the separator, and no technician's is a property's. */
  ghost predicate Distinguishable(a: Data, b: Data) {
    && Named(a) && Named(b)
    && (forall id :: id in ThingsOn(a) || id in ThingsOn(b) ==> '|' !in id)
    && (forall id :: id in TechnicianIds(a.positions) || id in TechnicianIds(b.positions) ==>
          id !in PropertyIds(a.properties) && id !in PropertyIds(b.properties))
  }

  function IsOneOf(ids: seq<string>): string -> bool {
    (id: string) => id in ids
  }

  /** Two lists made of one kind of id and then another agree exactly when they agree on each kind. */
  lemma KindsComeApart(t: seq<string>, p: seq<string>, u: seq<string>, q: seq<string>)
    requires forall id :: id in t || id in u ==> id !in p && id !in q
    ensures t + p == u + q <==> t == u && p == q
  {
    if t + p == u + q {
      var isFirst := IsOneOf(t + u);
      FilterAppend(t, p, isFirst);
      FilterAppend(u, q, isFirst);
      FilterAll(t, isFirst);
      FilterAll(u, isFirst);
      FilterNone(p, isFirst);
      FilterNone(q, isFirst);
      assert t == Filter(t + p, isFirst) && u == Filter(u + q, isFirst);
      assert p == (t + p)[|t|..] && q == (u + q)[|u|..];
    }
  }

  /** One list of ids has one key. */
  lemma KeyHoldsTheIds(a: seq<string>, b: seq<string>)
    requires forall id :: id in a || id in b ==> id != "" && '|' !in id
    ensures Join(a, '|') == Join(b, '|') <==> a == b
  {
    if |a| > 0 && |b| > 0 {
      SplitJoin(a, '|');
      SplitJoin(b, '|');
    } else if |a| > 0 {
      assert a[0] in a;
    } else if |b| > 0 {
      assert b[0] in b;
    }
  }

  /** Two deliveries have one key exactly when the same technicians and the same properties are on the map. */
  lemma SameKeyMeansSameThings(a: Data, b: Data)
    requires Distinguishable(a, b)
    ensures FitKey(a) == FitKey(b) <==>
            && multiset(TechnicianIds(a.positions)) == multiset(TechnicianIds(b.positions))
            && multiset(PropertyIds(a.properties)) == multiset(PropertyIds(b.properties))
  {
    var le := TextOrder();
    var t, p := TechnicianIds(a.positions), PropertyIds(a.properties);
    var u, q := TechnicianIds(b.positions), PropertyIds(b.properties);
    TextOrderIsTotal();
    ThingsAreTheIds(a);
    ThingsAreTheIds(b);
    KeyHoldsTheIds(ThingsOn(a), ThingsOn(b));
    StableSortMembers(t, le);
    StableSortMembers(u, le);
    StableSortMembers(p, le);
    StableSortMembers(q, le);
    KindsComeApart(StableSort(t, le), StableSort(p, le), StableSort(u, le), StableSort(q, le));
    SortOfPermutation(t, u, le);
    SortOfPermutation(p, q, le);
  }
}
