/** When the import dock's drawer is open (import-dock.tsx): as it was left, until uploads start from none. */
module ImportDrawer {
  import opened Options

  /** `stored` is the preference in the browser, which outlives the page; `None` until it is first written. */
  datatype State = State(open: bool, wasUploading: nat, stored: Option<bool>)

  datatype Event = Toggled(open: bool) | Rendered(uploading: nat)

  function Step(s: State, event: Event): State {
    match event
    case Toggled(open) => s.(open := open, stored := Some(open))
    case Rendered(uploading) =>
      s.(open := s.open || (uploading > 0 && s.wasUploading == 0), wasUploading := uploading)
  }

  function Run(s: State, events: seq<Event>): State {
    if |events| == 0 then s else Step(Run(s, events[..|events| - 1]), events[|events| - 1])
  }

  class Drawer {
    var open: bool
    var wasUploading: nat
    var stored: Option<bool>

    ghost function Now(): State
      reads this
    {
      State(open, wasUploading, stored)
    }

    /** `stored` is `None` as well where the browser refuses to say. */
    constructor (stored: Option<bool>)
      ensures Now() == State(stored == Some(true), 0, stored)
    {
      this.open, this.wasUploading, this.stored := stored == Some(true), 0, stored;
    }

    method Toggle(next: bool)
      modifies this
      ensures Now() == Step(old(Now()), Toggled(next))
    {
      open := next;
      stored := Some(next);
    }

    /** The effect on the number of uploads; the same number again leaves everything as it is. */
    method OnUploading(uploading: nat)
      modifies this
      ensures Now() == Step(old(Now()), Rendered(uploading))
    {
      if uploading > 0 && wasUploading == 0 {
        open := true;
      }
      wasUploading := uploading;
    }
  }

  function CountBefore(s: State, events: seq<Event>, i: nat): nat
    requires i <= |events|
  {
    if i == 0 then s.wasUploading
    else if events[i - 1].Rendered? then events[i - 1].uploading
    else CountBefore(s, events, i - 1)
  }

  /** Uploads start from none at this render. */
  predicate Starts(s: State, events: seq<Event>, i: nat) {
    i < |events| && events[i].Rendered? && events[i].uploading > 0 && CountBefore(s, events, i) == 0
  }

  lemma {:induction false} CountIsRemembered(s: State, events: seq<Event>, i: nat)
    requires i <= |events|
    ensures Run(s, events[..i]).wasUploading == CountBefore(s, events, i)
  {
    if i > 0 {
      assert events[..i][..i - 1] == events[..i - 1];
      CountIsRemembered(s, events, i - 1);
    }
  }

  /**
   * While the reader leaves it alone, an open drawer stays open and a closed one opens just when uploads start from
   * none.
   */
  lemma {:induction false} OpensOnlyOnStarting(s: State, events: seq<Event>)
    requires forall i :: 0 <= i < |events| ==> events[i].Rendered?
    ensures Run(s, events).open <==> s.open || exists i: nat :: Starts(s, events, i)
    ensures Run(s, events).stored == s.stored
  {
    if |events| == 0 {
    } else {
      var before, last := events[..|events| - 1], |events| - 1;
      OpensOnlyOnStarting(s, before);
      CountIsRemembered(s, events, last);
      forall i: nat | i < last ensures Starts(s, events, i) == Starts(s, before, i) {
        SameCount(s, events, last, i);
      }
      if Run(s, before).open && !s.open {
        var i: nat :| Starts(s, before, i);
        assert Starts(s, events, i);
      }
      assert Run(s, events).open && !Run(s, before).open ==> Starts(s, events, last);
      if i: nat :| Starts(s, events, i) {
        assert i < last ==> Starts(s, before, i);
      }
    }
  }

  lemma {:induction false} SameCount(s: State, events: seq<Event>, cut: nat, i: nat)
    requires i <= cut <= |events|
    ensures CountBefore(s, events[..cut], i) == CountBefore(s, events, i)
  {
    if i > 0 {
      SameCount(s, events, cut, i - 1);
    }
  }

  /** What the reader says goes, at once, and is what the browser remembers. */
  lemma TogglingIsRemembered(s: State, open: bool)
    ensures Step(s, Toggled(open)) == State(open, s.wasUploading, Some(open))
  {
  }

  /** Closed by the reader while uploads go on, it stays closed until they have all gone and another starts. */
  lemma ClosingSticks(s: State, events: seq<Event>)
    requires s.wasUploading > 0
    requires forall i :: 0 <= i < |events| ==> events[i].Rendered? && events[i].uploading > 0
    ensures !Run(Step(s, Toggled(false)), events).open
  {
    var closed := Step(s, Toggled(false));
    OpensOnlyOnStarting(closed, events);
    forall i: nat ensures !Starts(closed, events, i) {
    }
  }
}
