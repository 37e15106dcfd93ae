/**
 * The marker editor of the plan comparison dialog (floor-plan-manager.tsx): which area is selected, which is being
 * edited, the unsaved position, and the guard that parks an action which would discard it.
 */
module MarkerEditor {
  import opened Options

  datatype Position = Position(x: real, y: real)

  /** What the server stores: the marker an area has on the plan on screen, if any. */
  type Stored = map<string, Position>

  /** A parked action. Selecting keeps the edited area of the render that parked it, as the closure does. */
  datatype Intent = SelectArea(id: string, editing: Option<string>) | ChangePage(page: int) | CloseWorkspace

  datatype State = State(
    selected: Option<string>,
    editing: Option<string>,
    draft: Option<Position>,
    page: int,
    pending: Option<Intent>,
    stored: Stored,
    saving: Option<(string, Position)>,
    closed: bool)

  datatype Event =
    | Select(id: string)
    | StartEdit(id: string)
    | FocusArea(id: string)
    | Place(at: Position)
    | CancelEdit
    | Save(id: string)
    | SaveSucceeded
    | SaveFailed
    | GoToPage(page: int)
    | RequestClose
    | KeepEditing
    | Discard
    | Refetched(stored: Stored)

  const TOLERANCE: real := 0.000001

  function Abs(x: real): real {
    if x < 0.0 then -x else x
  }

  predicate Moved(from: Position, to: Position) {
    Abs(from.x - to.x) > TOLERANCE || Abs(from.y - to.y) > TOLERANCE
  }

  /** The stored position of the selected area, which is what the draft is compared with. */
  function CurrentMarker(s: State): Option<Position> {
    if s.selected.Some? && s.selected.value in s.stored then Some(s.stored[s.selected.value]) else None
  }

  predicate Unsaved(s: State) {
    && s.editing.Some?
    && s.draft.Some?
    && (CurrentMarker(s).None? || Moved(CurrentMarker(s).value, s.draft.value))
  }

  /** What a parked action does once it is let through. */
  function Perform(s: State, intent: Intent): State {
    match intent
    case SelectArea(id, editing) =>
      if editing.Some? && editing.value != id then s.(selected := Some(id), editing := None, draft := None)
      else s.(selected := Some(id))
    case ChangePage(page) => s.(page := page, selected := None, editing := None, draft := None)
    case CloseWorkspace => s.(closed := true)
  }

  function Guard(s: State, intent: Intent): State {
    if Unsaved(s) then s.(pending := Some(intent)) else Perform(s, intent)
  }

  function Step(s: State, event: Event): State {
    if s.closed then s else
    match event
    case Select(id) =>
      if s.editing.Some? && s.editing.value != id then Guard(s, SelectArea(id, s.editing))
      else Perform(s, SelectArea(id, s.editing))
    case StartEdit(id) =>
      s.(selected := Some(id), editing := Some(id), draft := if id in s.stored then Some(s.stored[id]) else None)
    case FocusArea(id) => s.(selected := Some(id))
    case Place(at) => s.(draft := Some(at))
    case CancelEdit => s.(editing := None, draft := None)
    case Save(id) => if s.draft.None? then s else s.(saving := Some((id, s.draft.value)))
    case SaveSucceeded =>
      if s.saving.None? then s
      else s.(stored := s.stored[s.saving.value.0 := s.saving.value.1], editing := None, draft := None, saving := None)
    case SaveFailed => s.(saving := None)
    case GoToPage(page) => Guard(s, ChangePage(page))
    case RequestClose => Guard(s, CloseWorkspace)
    case KeepEditing => s.(pending := None)
    case Discard => if s.pending.None? then s else Perform(s, s.pending.value).(pending := None)
    case Refetched(stored) => s.(stored := stored)
  }

  function Run(s: State, events: seq<Event>): State {
    if |events| == 0 then s else Step(Run(s, events[..|events| - 1]), events[|events| - 1])
  }

  // ----- The component

  class Workspace {
    var selectedAreaId: Option<string>
    var editingAreaId: Option<string>
    var draftMarker: Option<Position>
    var pageNumber: int
    var pendingDiscard: Option<Intent>
    var stored: Stored
    var saving: Option<(string, Position)>
    var closed: bool

    ghost function Now(): State
      reads this
    {
      State(selectedAreaId, editingAreaId, draftMarker, pageNumber, pendingDiscard, stored, saving, closed)
    }

    constructor (stored: Stored)
      ensures Now() == State(None, None, None, 1, None, stored, None, false)
    {
      selectedAreaId, editingAreaId, draftMarker, pageNumber := None, None, None, 1;
      pendingDiscard, saving, closed := None, None, false;
      this.stored := stored;
    }

    method HasUnsavedChanges() returns (unsaved: bool)
      ensures unsaved == Unsaved(Now())
    {
      unsaved := false;
      if editingAreaId.Some? && draftMarker.Some? {
        if selectedAreaId.Some? && selectedAreaId.value in stored {
          unsaved := Moved(stored[selectedAreaId.value], draftMarker.value);
        } else {
          unsaved := true;
        }
      }
    }

    method RunIntent(intent: Intent)
      modifies this
      ensures Now() == Perform(old(Now()), intent)
    {
      match intent
      case SelectArea(id, editing) =>
        selectedAreaId := Some(id);
        if editing.Some? && editing.value != id {
          editingAreaId, draftMarker := None, None;
        }
      case ChangePage(page) =>
        pageNumber, selectedAreaId := page, None;
        editingAreaId, draftMarker := None, None;
      case CloseWorkspace =>
        closed := true;
    }

    method GuardUnsaved(intent: Intent)
      modifies this
      ensures Now() == Guard(old(Now()), intent)
    {
      var unsaved := HasUnsavedChanges();
      if unsaved {
        pendingDiscard := Some(intent);
      } else {
        RunIntent(intent);
      }
    }

    method Handle(event: Event)
      modifies this
      ensures Now() == Step(old(Now()), event)
    {
      if closed {
        return;
      }
      match event
      case Select(id) =>
        if editingAreaId.Some? && editingAreaId.value != id {
          GuardUnsaved(SelectArea(id, editingAreaId));
        } else {
          RunIntent(SelectArea(id, editingAreaId));
        }
      case StartEdit(id) =>
        selectedAreaId, editingAreaId := Some(id), Some(id);
        draftMarker := if id in stored then Some(stored[id]) else None;
      case FocusArea(id) => selectedAreaId := Some(id);
      case Place(at) => draftMarker := Some(at);
      case CancelEdit => editingAreaId, draftMarker := None, None;
      case Save(id) =>
        if draftMarker.Some? {
          saving := Some((id, draftMarker.value));
        }
      case SaveSucceeded =>
        if saving.Some? {
          stored := stored[saving.value.0 := saving.value.1];
          editingAreaId, draftMarker, saving := None, None, None;
        }
      case SaveFailed => saving := None;
      case GoToPage(page) => GuardUnsaved(ChangePage(page));
      case RequestClose => GuardUnsaved(CloseWorkspace);
      case KeepEditing => pendingDiscard := None;
      case Discard =>
        if pendingDiscard.Some? {
          RunIntent(pendingDiscard.value);
          pendingDiscard := None;
        }
      case Refetched(newest) => stored := newest;
    }
  }

  // ----- The guard

  /** The three actions that would lose an unsaved position. */
  predicate WouldLoseDraft(s: State, event: Event) {
    match event
    case Select(id) => s.editing != Some(id)
    case GoToPage(_) => true
    case RequestClose => true
    case _ => false
  }

  /** The work on screen: everything a person would see change if the guard let something through. */
  predicate SameWork(a: State, b: State) {
    a.selected == b.selected && a.editing == b.editing && a.draft == b.draft && a.page == b.page && a.closed == b.closed
  }

  /**
   * With an unsaved position each of them changes nothing and parks itself. Keeping the edit then restores the state
   * exactly; discarding does, once, what the action would have done had there been nothing to lose.
   */
  lemma GuardParksAndReplays(s: State, event: Event)
    requires !s.closed && s.pending.None? && Unsaved(s) && WouldLoseDraft(s, event)
    ensures var parked := Step(s, event);
            && SameWork(parked, s) && parked.pending.Some?
            && Step(parked, KeepEditing) == s
            && Step(parked, Discard) ==
               Step(s.(draft := CurrentMarker(s)), event).(draft := Step(parked, Discard).draft)
            && (event != RequestClose ==> Step(parked, Discard).draft.None? && Step(parked, Discard).editing.None?)
            && (event == RequestClose ==> Step(parked, Discard).closed)
            && Step(Step(parked, Discard), Discard) == Step(parked, Discard)
  {
    var clean := s.(draft := CurrentMarker(s));
    assert !Unsaved(clean);
  }

  /** With nothing unsaved the same actions go straight through, and nothing is parked. */
  lemma GuardLetsCleanStateThrough(s: State, event: Event)
    requires !s.closed && s.pending.None? && !Unsaved(s) && WouldLoseDraft(s, event)
    ensures var after := Step(s, event);
            && after.pending.None?
            && match event
               case Select(id) => after.selected == Some(id) && after.page == s.page && after.editing.None?
               case GoToPage(page) => after.page == page && after.selected.None? && after.editing.None?
               case _ => after.closed
  {
  }

  // ----- Whole runs

  /** The checklist offers an edit only while nothing is being edited, and focusing likewise. */
  predicate OfferedByChecklist(s: State, event: Event) {
    match event
    case StartEdit(_) => s.editing.None?
    case FocusArea(_) => s.editing.None?
    case _ => true
  }

  ghost predicate OfferedRun(s: State, events: seq<Event>) {
    forall i :: 0 <= i < |events| ==> OfferedByChecklist(Run(s, events[..i]), events[i])
  }

  function Opened(stored: Stored): State {
    State(None, None, None, 1, None, stored, None, false)
  }

  /** The area being edited is the selected one, so the draft is always compared with its own marker. */
  predicate EditsTheSelected(s: State) {
    && (s.editing.Some? ==> s.selected == s.editing)
    && (s.pending.Some? && s.pending.value.SelectArea? ==>
          s.pending.value.editing.Some? && s.pending.value.editing.value != s.pending.value.id)
  }

  lemma {:induction false} EditedAreaIsSelected(stored: Stored, events: seq<Event>)
    requires OfferedRun(Opened(stored), events)
    ensures EditsTheSelected(Run(Opened(stored), events))
  {
    if |events| == 0 {
    } else {
      var front := events[..|events| - 1];
      forall i | 0 <= i < |front| ensures OfferedByChecklist(Run(Opened(stored), front[..i]), front[i]) {
        assert events[..i] == front[..i];
      }
      EditedAreaIsSelected(stored, front);
      assert OfferedByChecklist(Run(Opened(stored), events[..|events| - 1]), events[|events| - 1]);
    }
  }

  /** Two positions are one: a millionth apart at most, across and down. */
  predicate SamePlace(p: Position, q: Position) {
    -0.000001 <= p.x - q.x <= 0.000001 && -0.000001 <= p.y - q.y <= 0.000001
  }

  /** The position on screen is not the stored one of the area being edited. */
  predicate EditIsUnsaved(s: State) {
    && s.editing.Some? && s.draft.Some?
    && (s.editing.value in s.stored ==> !SamePlace(s.stored[s.editing.value], s.draft.value))
  }

  /**
   * The guard over whole runs: an action that would lose the position on screen is held back exactly when that position
   * is not the stored one of the area being edited, and is otherwise carried out at once. Held back, it changes
   * nothing, and is undone by keeping the edit.
   */
  lemma ActionsAreHeldBackExactly(stored: Stored, events: seq<Event>, event: Event)
    requires OfferedRun(Opened(stored), events)
    requires var s := Run(Opened(stored), events);
             !s.closed && s.pending.None? && WouldLoseDraft(s, event)
    ensures var s := Run(Opened(stored), events);
            var after := Step(s, event);
            if EditIsUnsaved(s) then
              SameWork(after, s) && after.pending.Some? && Step(after, KeepEditing) == s
              && (if event == RequestClose then Step(after, Discard).closed
                  else Step(after, Discard).draft.None? && Step(after, Discard).editing.None?)
            else
              && after.pending.None?
              && match event
                 case Select(id) => after.selected == Some(id) && after.page == s.page && after.editing.None?
                 case GoToPage(page) => after.page == page && after.selected.None? && after.editing.None?
                 case _ => after.closed
  {
    var s := Run(Opened(stored), events);
    EditedAreaIsSelected(stored, events);
    assert Unsaved(s) == EditIsUnsaved(s);
    if Unsaved(s) {
      GuardParksAndReplays(s, event);
    } else {
      GuardLetsCleanStateThrough(s, event);
    }
  }

  /** The edit goes on, with the position on screen or the one it has just been moved to. */
  predicate EditGoesOn(s: State, event: Event, next: State) {
    !next.closed && next.editing == s.editing && next.draft == if event.Place? then Some(event.at) else s.draft
  }

  /** What a person, or the server, does to end an edit. */
  predicate EndsEdit(s: State, event: Event) {
    event == CancelEdit || (event == SaveSucceeded && s.saving.Some?) || (event == Discard && s.pending.Some?)
  }

  /**
   * Exactly what loses an unsaved position, after any run of offered controls and whatever comes next: cancelling, a
   * save succeeding, a confirmed discard, or starting an edit. The last would do so without asking; it is not offered
   * while an edit goes on, so of what is offered the first three are all there is.
   */
  lemma DraftIsLostOnlyOnPurpose(stored: Stored, events: seq<Event>, event: Event)
    requires OfferedRun(Opened(stored), events)
    requires var s := Run(Opened(stored), events); !s.closed && EditIsUnsaved(s)
    ensures var s := Run(Opened(stored), events);
            var next := Step(s, event);
            && (!EditGoesOn(s, event, next) <==> EndsEdit(s, event) || event.StartEdit?)
            && (EndsEdit(s, event) ==> next.closed || (next.editing.None? && next.draft.None?))
            && (event.StartEdit? ==> next.pending == s.pending && !OfferedByChecklist(s, event))
  {
    EditedAreaIsSelected(stored, events);
  }

  /** What starts, fills, sends and ends an edit, in the fields on screen. */
  lemma EditIsAsDone(s: State, event: Event)
    requires !s.closed
    ensures var next := Step(s, event);
            match event
            case StartEdit(id) =>
              next == s.(selected := Some(id), editing := Some(id),
                draft := if id in s.stored then Some(s.stored[id]) else None)
            case FocusArea(id) => next == s.(selected := Some(id))
            case Place(at) => next == s.(draft := Some(at))
            case CancelEdit => next == s.(editing := None, draft := None)
            case Save(id) => next == s.(saving := if s.draft.Some? then Some((id, s.draft.value)) else s.saving)
            case SaveFailed => next == s.(saving := None)
            case Refetched(stored) => next == s.(stored := stored)
            case _ => true
  {
  }

  /** The position on screen has been stored for the area it belongs to. */
  predicate Recorded(s: State, area: string, at: Position) {
    area in s.stored && SamePlace(s.stored[area], at)
  }

  /**
   * A save that succeeds closes whatever edit is on screen. The position there is safe exactly when it is the one
   * that was sent, for the area it was sent for.
   */
  lemma SaveKeepsOnlyWhatWasSent(s: State)
    requires !s.closed && s.saving.Some? && EditsTheSelected(s) && Unsaved(s)
    ensures var next := Step(s, SaveSucceeded);
            && next.editing.None? && next.draft.None?
            && next.stored[s.saving.value.0] == s.saving.value.1
            && (Recorded(next, s.editing.value, s.draft.value) <==>
                  s.editing.value == s.saving.value.0 && SamePlace(s.saving.value.1, s.draft.value))
  {
  }

  /**
   * The other case does happen, with nothing but controls that are on offer: saving one area, moving on to another
   * while the request is out, and placing that one's marker, which the first area's success then drops.
   */
  lemma LateSaveDropsAnotherAreasWork(stored: Stored, a: string, b: string, p: Position, q: Position)
    requires a != b && a !in stored && b !in stored
    ensures var saved := Step(Step(Step(Opened(stored), StartEdit(a)), Place(p)), Save(a));
            var discarded := Step(Step(saved, Select(b)), Discard);
            var placed := Step(Step(discarded, StartEdit(b)), Place(q));
            && OfferedByChecklist(Opened(stored), StartEdit(a)) && OfferedByChecklist(discarded, StartEdit(b))
            && Unsaved(placed) && placed.editing == Some(b) && placed.draft == Some(q)
            && Step(placed, SaveSucceeded).draft.None? && !Recorded(Step(placed, SaveSucceeded), b, q)
  {
  }
}
