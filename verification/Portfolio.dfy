/** Which properties the map draws, and which of them has its window open (map-portfolio.tsx). */
module Portfolio {
  import opened Options
  import opened Sequences
  import opened MapClusters

  /** The padding of the view within which discs are drawn: half its height above and below, half its width aside. */
  const DRAWN_BEYOND_VIEW: real := 0.5

  /** `enrolled` is absent for a reader who may not be told. */
  datatype Property = Property(id: string, at: Place, enrolled: Option<bool>)

  // ----- What is shown at all

  datatype About = About(selectedId: Option<string>, highlighted: Option<set<string>>, searched: Option<set<string>>)

  predicate Concerns(about: About, id: string) {
    || about.selectedId == Some(id)
    || (about.highlighted.Some? && id in about.highlighted.value)
    || (about.searched.Some? && id in about.searched.value)
  }

  function Showable(about: About): Property -> bool {
    (p: Property) => p.enrolled != Some(false) || Concerns(about, p.id)
  }

  function Shown(properties: seq<Property>, otherProperties: bool, about: About): seq<Property> {
    if otherProperties then properties else Filter(properties, Showable(about))
  }

  // ----- What is drawn

  function InReach(openId: Option<string>, reach: Box): Property -> bool {
    (p: Property) => openId == Some(p.id) || InBox(p.at, reach)
  }

  function Drawn(properties: seq<Property>, openId: Option<string>, view: Option<Box>): seq<Property> {
    if view.None? then properties
    else Filter(properties, InReach(openId, PadBox(view.value, DRAWN_BEYOND_VIEW)))
  }

  /**
   * Between two settles the reader can pan by up to half the view: every property shown that was or comes into view
   * is already drawn, and so is the one whose window is open, wherever it is.
   */
  lemma PanUncoversNothing(
    properties: seq<Property>, openId: Option<string>, view: Box, north: real, east: real, p: Property)
    requires BoxInWorld(view) && ShortPan(view, 0.5, north, east)
    requires !PansPastDateLine(view, east) || WrapsWorld(view, 0.5)
    requires InWorld(p.at)
    requires InBox(p.at, view) || InBox(p.at, Panned(view, north, east)) || openId == Some(p.id)
    ensures p in Drawn(properties, openId, Some(view)) <==> p in properties
  {
    PadBoxGrows(view, DRAWN_BEYOND_VIEW, DRAWN_BEYOND_VIEW);
    PaddingCoversPan(view, DRAWN_BEYOND_VIEW, north, east);
  }

  /**
   * What the map ends up drawing once the page has said what it is about: nothing it is about is hidden for being off
   * the package, and nothing off the package is drawn for any other reason.
   */
  lemma DrawnOnTheMap(
    properties: seq<Property>, otherProperties: bool, about: About, openId: Option<string>, view: Option<Box>,
    p: Property)
    ensures p in Drawn(Shown(properties, otherProperties, about), openId, view) <==>
            && p in properties
            && (|| otherProperties || p.enrolled != Some(false)
                || about.selectedId == Some(p.id)
                || (about.highlighted.Some? && p.id in about.highlighted.value)
                || (about.searched.Some? && p.id in about.searched.value))
            && (view.None? || openId == Some(p.id) || InBox(p.at, PadBox(view.value, 0.5)))
  {
  }

  /** Choosing what to show and choosing what to draw may be done in either order. */
  lemma ShowingAndDrawingCommute(
    properties: seq<Property>, otherProperties: bool, about: About, openId: Option<string>, view: Option<Box>)
    ensures Drawn(Shown(properties, otherProperties, about), openId, view)
            == Shown(Drawn(properties, openId, view), otherProperties, about)
  {
    if !otherProperties && view.Some? {
      var shown := Showable(about);
      var drawn := InReach(openId, PadBox(view.value, DRAWN_BEYOND_VIEW));
      FilterTwice(properties, shown, drawn, (p: Property) => shown(p) && drawn(p));
      FilterTwice(properties, drawn, shown, (p: Property) => shown(p) && drawn(p));
    }
  }

  // ----- The open window

  datatype Event = Rendered(selectedId: Option<string>) | Clicked(id: string) | Closed

  /** The window's state in `PropertyLayer`: which is open, and the selection last acted on. */
  class PropertyWindow {
    var openId: Option<string>
    var lastSelected: Option<string>

    constructor (selectedId: Option<string>)
      ensures openId == selectedId && lastSelected == selectedId
    {
      openId, lastSelected := selectedId, selectedId;
    }

    method Handle(event: Event)
      modifies this
      ensures (openId, lastSelected) == Next((old(openId), old(lastSelected)), event)
    {
      match event
      case Clicked(id) => openId := Some(id);
      case Closed => openId := None;
      case Rendered(selectedId) =>
        if selectedId != lastSelected {
          lastSelected := selectedId;
          openId := selectedId;
        }
    }
  }

  type Window = (Option<string>, Option<string>)

  function Next(w: Window, event: Event): Window {
    match event
    case Clicked(id) => (Some(id), w.1)
    case Closed => (None, w.1)
    case Rendered(selectedId) => if selectedId == w.1 then w else (selectedId, selectedId)
  }

  function Run(w: Window, events: seq<Event>): Window
    decreases |events|
  {
    if |events| == 0 then w else Run(Next(w, events[0]), events[1..])
  }

  /** A history without the renders that repeat the selection: what people did, and not what was refetched. */
  function Deeds(selected: Option<string>, events: seq<Event>): seq<Event>
    decreases |events|
  {
    if |events| == 0 then []
    else if events[0] == Rendered(selected) then Deeds(selected, events[1..])
    else [events[0]] + Deeds(if events[0].Rendered? then events[0].selectedId else selected, events[1..])
  }

  /** Refetches never open or close a window, however many there are and whatever was clicked in between. */
  lemma {:induction false} RefetchesLeaveWindowAlone(w: Window, events: seq<Event>)
    ensures Run(w, events) == Run(w, Deeds(w.1, events))
    decreases |events|
  {
    if |events| == 0 {
    } else {
      RefetchesLeaveWindowAlone(Next(w, events[0]), events[1..]);
      if events[0] != Rendered(w.1) {
        assert Deeds(w.1, events)[1..] == Deeds(Next(w, events[0]).1, events[1..]);
      }
    }
  }

  /** With no refetches to ignore, the window is whatever the last deed made it. */
  lemma {:induction false} LastDeedDecides(w: Window, events: seq<Event>)
    requires |Deeds(w.1, events)| > 0
    ensures var deeds := Deeds(w.1, events);
            Run(w, events).0 ==
              match deeds[|deeds| - 1]
              case Clicked(id) => Some(id)
              case Closed => None
              case Rendered(selectedId) => selectedId
    decreases |events|
  {
    var rest := events[1..];
    if |Deeds(Next(w, events[0]).1, rest)| > 0 {
      LastDeedDecides(Next(w, events[0]), rest);
    } else {
      RefetchesLeaveWindowAlone(Next(w, events[0]), rest);
    }
  }
}
