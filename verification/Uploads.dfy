/** The uploads the import dock carries (import-dock.tsx): one record per inspection, written by every attempt on it. */
module Uploads {
  import opened Options
  import opened Sequences

  datatype Upload = Upload(
    inspectionId: string,
    address: Option<string>,
    progress: Option<real>,
    error: Option<string>,
    existingInspectionId: Option<string>)

  /** How the request of an attempt stands. */
  datatype Outcome = Outstanding | Landed | Refused(message: string, existing: Option<string>)

  datatype Attempt = Attempt(inspectionId: string, address: Option<string>, outcome: Outcome)

  /** The records, and the attempts they come from in the order they were made. */
  datatype State = State(uploads: map<string, Upload>, attempts: seq<Attempt>)

  /** Progress may be heard of from any attempt at any time; an answer comes once. */
  datatype Event =
    | Chosen(inspectionId: string, address: Option<string>)
    | Moved(attempt: nat, fraction: real)
    | Answered(attempt: nat, outcome: Outcome)

  const IDLE := State(map[], [])

  predicate Possible(s: State, event: Event) {
    match event
    case Chosen(_, _) => true
    case Moved(k, _) => k < |s.attempts|
    case Answered(k, outcome) => k < |s.attempts| && s.attempts[k].outcome.Outstanding? && !outcome.Outstanding?
  }

  function Refusal(attempt: Attempt, outcome: Outcome): Upload
    requires outcome.Refused?
  {
    Upload(attempt.inspectionId, attempt.address, None, Some(outcome.message), outcome.existing)
  }

  function Step(s: State, event: Event): State {
    if !Possible(s, event) then s else
    match event
    case Chosen(id, address) =>
      State(s.uploads[id := Upload(id, address, Some(0.0), None, None)],
            s.attempts + [Attempt(id, address, Outstanding)])
    case Moved(k, fraction) =>
      var id := s.attempts[k].inspectionId;
      if id in s.uploads then s.(uploads := s.uploads[id := s.uploads[id].(progress := Some(fraction))]) else s
    case Answered(k, outcome) =>
      var attempt := s.attempts[k];
      var id := attempt.inspectionId;
      State(if outcome.Landed? then s.uploads - {id} else s.uploads[id := Refusal(attempt, outcome)],
            s.attempts[k := attempt.(outcome := outcome)])
  }

  function Run(s: State, events: seq<Event>): State {
    if |events| == 0 then s else Step(Run(s, events[..|events| - 1]), events[|events| - 1])
  }

  class Dock {
    var uploads: map<string, Upload>
    var attempts: seq<Attempt>

    ghost function Now(): State
      reads this
    {
      State(uploads, attempts)
    }

    constructor ()
      ensures Now() == IDLE
    {
      uploads, attempts := map[], [];
    }

    method Start(inspectionId: string, address: Option<string>)
      modifies this
      ensures Now() == Step(old(Now()), Chosen(inspectionId, address))
    {
      uploads := uploads[inspectionId := Upload(inspectionId, address, Some(0.0), None, None)];
      attempts := attempts + [Attempt(inspectionId, address, Outstanding)];
    }

    method OnProgress(attempt: nat, fraction: real)
      requires attempt < |attempts|
      modifies this`uploads
      ensures Now() == Step(old(Now()), Moved(attempt, fraction))
    {
      var id := attempts[attempt].inspectionId;
      if id in uploads {
        uploads := uploads[id := uploads[id].(progress := Some(fraction))];
      }
    }

    /** The `then` handler: the polled job list takes over, so the record steps aside. */
    method OnLanded(attempt: nat)
      requires attempt < |attempts| && attempts[attempt].outcome.Outstanding?
      modifies this
      ensures Now() == Step(old(Now()), Answered(attempt, Landed))
    {
      uploads := uploads - {attempts[attempt].inspectionId};
      attempts := attempts[attempt := attempts[attempt].(outcome := Landed)];
    }

    /** The `catch` handler: the whole record is written again, from what the attempt was started with. */
    method OnRefused(attempt: nat, message: string, existing: Option<string>)
      requires attempt < |attempts| && attempts[attempt].outcome.Outstanding?
      modifies this
      ensures Now() == Step(old(Now()), Answered(attempt, Refused(message, existing)))
    {
      var tried := attempts[attempt];
      var failed := Upload(tried.inspectionId, tried.address, None, Some(message), existing);
      uploads := uploads[tried.inspectionId := failed];
      attempts := attempts[attempt := tried.(outcome := Refused(message, existing))];
    }
  }

  // ----- What the record says

  /** The latest attempt on an inspection, or -1. */
  function LatestOn(attempts: seq<Attempt>, id: string): (latest: int)
    ensures -1 <= latest < |attempts|
    ensures latest >= 0 ==> attempts[latest].inspectionId == id
    ensures forall k :: latest < k < |attempts| ==> attempts[k].inspectionId != id
  {
    if |attempts| == 0 then -1
    else if attempts[|attempts| - 1].inspectionId == id then |attempts| - 1
    else LatestOn(attempts[..|attempts| - 1], id)
  }

  lemma LatestIsTheOne(attempts: seq<Attempt>, id: string, k: nat)
    requires k < |attempts| && attempts[k].inspectionId == id
    requires forall j :: k < j < |attempts| ==> attempts[j].inspectionId != id
    ensures LatestOn(attempts, id) == k
  {
  }

  /**
   * The record tells of the latest attempt: there is one exactly when the inspection was started on and that attempt
   * has not landed, and it carries an error exactly when that attempt was refused, its own.
   */
  predicate Truthful(s: State, id: string) {
    var k := LatestOn(s.attempts, id);
    if k < 0 || s.attempts[k].outcome.Landed? then id !in s.uploads
    else
      && id in s.uploads && s.uploads[id].inspectionId == id && s.uploads[id].address == s.attempts[k].address
      && match s.attempts[k].outcome
         case Refused(message, existing) =>
           s.uploads[id].error == Some(message) && s.uploads[id].existingInspectionId == existing
         case _ => s.uploads[id].error.None? && s.uploads[id].existingInspectionId.None?
  }

  ghost predicate NoneOutstanding(s: State, id: string) {
    forall k :: 0 <= k < |s.attempts| && s.attempts[k].inspectionId == id ==> !s.attempts[k].outcome.Outstanding?
  }

  ghost predicate OnlyLatestOutstanding(s: State, id: string) {
    forall k :: 0 <= k < |s.attempts| && s.attempts[k].inspectionId == id && s.attempts[k].outcome.Outstanding?
                ==> k == LatestOn(s.attempts, id)
  }

  predicate StartsOn(event: Event, id: string) {
    event.Chosen? && event.inspectionId == id
  }

  /** No file is handed over for an inspection while one for it is still going up. */
  ghost predicate OneAtATime(events: seq<Event>, id: string) {
    forall i :: 0 <= i < |events| && StartsOn(events[i], id) ==> NoneOutstanding(Run(IDLE, events[..i]), id)
  }

  lemma StepKeepsLatest(s: State, event: Event, id: string)
    requires !StartsOn(event, id)
    ensures LatestOn(Step(s, event).attempts, id) == LatestOn(s.attempts, id)
  {
    var after := Step(s, event);
    var k := LatestOn(s.attempts, id);
    if k >= 0 {
      LatestIsTheOne(after.attempts, id, k);
    }
  }

  lemma StartKeepsTruth(s: State, id: string, address: Option<string>)
    requires NoneOutstanding(s, id)
    ensures var started := Step(s, Chosen(id, address)); Truthful(started, id) && OnlyLatestOutstanding(started, id)
  {
    LatestIsTheOne(Step(s, Chosen(id, address)).attempts, id, |s.attempts|);
  }

  lemma ProgressKeepsTruth(s: State, event: Event, id: string)
    requires event.Moved? && Truthful(s, id) && OnlyLatestOutstanding(s, id)
    ensures Truthful(Step(s, event), id) && OnlyLatestOutstanding(Step(s, event), id)
  {
  }

  /** Another inspection's event touches neither the record nor the attempts. */
  lemma OthersKeepTruth(s: State, event: Event, id: string)
    requires Truthful(s, id) && OnlyLatestOutstanding(s, id)
    requires event.Chosen? ==> event.inspectionId != id
    requires event.Answered? && event.attempt < |s.attempts| ==> s.attempts[event.attempt].inspectionId != id
    ensures Truthful(Step(s, event), id) && OnlyLatestOutstanding(Step(s, event), id)
  {
    StepKeepsLatest(s, event, id);
    if event.Moved? {
      ProgressKeepsTruth(s, event, id);
    }
  }

  /** An answer about the inspection is about its latest attempt, and the record says what became of it. */
  lemma AnswerKeepsTruth(s: State, event: Event, id: string)
    requires Truthful(s, id) && OnlyLatestOutstanding(s, id)
    requires event.Answered? && event.attempt < |s.attempts| && s.attempts[event.attempt].inspectionId == id
    ensures Truthful(Step(s, event), id) && OnlyLatestOutstanding(Step(s, event), id)
  {
    StepKeepsLatest(s, event, id);
  }

  lemma StepKeepsTruth(s: State, event: Event, id: string)
    requires Truthful(s, id) && OnlyLatestOutstanding(s, id)
    requires StartsOn(event, id) ==> NoneOutstanding(s, id)
    ensures Truthful(Step(s, event), id) && OnlyLatestOutstanding(Step(s, event), id)
  {
    if StartsOn(event, id) {
      StartKeepsTruth(s, id, event.address);
    } else if event.Answered? && event.attempt < |s.attempts| && s.attempts[event.attempt].inspectionId == id {
      AnswerKeepsTruth(s, event, id);
    } else {
      OthersKeepTruth(s, event, id);
    }
  }

  lemma {:induction false} RunKeepsTruth(s: State, events: seq<Event>, id: string)
    requires Truthful(s, id) && OnlyLatestOutstanding(s, id)
    requires forall i :: 0 <= i < |events| && StartsOn(events[i], id) ==> NoneOutstanding(Run(s, events[..i]), id)
    ensures Truthful(Run(s, events), id) && OnlyLatestOutstanding(Run(s, events), id)
  {
    if |events| == 0 {
    } else {
      var before := events[..|events| - 1];
      forall i | 0 <= i < |before| && StartsOn(before[i], id) ensures NoneOutstanding(Run(s, before[..i]), id) {
        assert before[..i] == events[..i] && StartsOn(events[i], id);
      }
      RunKeepsTruth(s, before, id);
      StepKeepsTruth(Run(s, before), events[|events| - 1], id);
    }
  }

  /** Over every interleaving of starts, progress and answers, with at most one attempt on the inspection at a time. */
  lemma RecordTellsTheLatestAttempt(events: seq<Event>, id: string)
    requires OneAtATime(events, id)
    ensures Truthful(Run(IDLE, events), id)
  {
    RunKeepsTruth(IDLE, events, id);
  }

  /**
   * And one at a time is exactly what it takes. A second file may be handed over without the record ever going wrong
   * for it just when no attempt on that inspection is outstanding: otherwise the older one can still land, and takes
   * away the record of the newer.
   */
  lemma SecondFileIsSafeExactly(events: seq<Event>, id: string, address: Option<string>)
    requires OneAtATime(events, id)
    ensures var s := Run(IDLE, events);
            NoneOutstanding(s, id) <==>
            forall later: seq<Event> :: (forall i :: 0 <= i < |later| ==> !StartsOn(later[i], id))
              ==> Truthful(Run(Step(s, Chosen(id, address)), later), id)
  {
    var s := Run(IDLE, events);
    var started := Step(s, Chosen(id, address));
    RunKeepsTruth(IDLE, events, id);
    if NoneOutstanding(s, id) {
      StepKeepsTruth(s, Chosen(id, address), id);
      forall later: seq<Event> | forall i :: 0 <= i < |later| ==> !StartsOn(later[i], id)
        ensures Truthful(Run(started, later), id)
      {
        RunKeepsTruth(started, later, id);
      }
    } else {
      var k :| 0 <= k < |s.attempts| && s.attempts[k].inspectionId == id && s.attempts[k].outcome.Outstanding?;
      OlderLandingTakesTheRecord(started, k, id);
    }
  }

  lemma OlderLandingTakesTheRecord(s: State, k: nat, id: string)
    requires k < LatestOn(s.attempts, id) && s.attempts[k] == s.attempts[k].(inspectionId := id, outcome := Outstanding)
    requires s.attempts[LatestOn(s.attempts, id)].outcome.Outstanding?
    ensures var later := [Answered(k, Landed)];
            !StartsOn(later[0], id) && !Truthful(Run(s, later), id)
  {
    var later := [Answered(k, Landed)];
    assert later[..0] == [] && Run(s, later[..0]) == s;
    StepKeepsLatest(s, later[0], id);
    assert id !in Run(s, later).uploads;
  }

  /** An answer takes the record away, or leaves one with the attempt's own address, no bar and the reason. */
  lemma AnswerIsRecorded(s: State, k: nat, outcome: Outcome)
    requires k < |s.attempts| && s.attempts[k].outcome.Outstanding? && !outcome.Outstanding?
    ensures var after, id := Step(s, Answered(k, outcome)), s.attempts[k].inspectionId;
            && (outcome.Landed? ==> id !in after.uploads)
            && (outcome.Refused? ==>
                  && id in after.uploads && after.uploads[id].address == s.attempts[k].address
                  && after.uploads[id].inspectionId == id && after.uploads[id].progress.None?
                  && after.uploads[id].error == Some(outcome.message)
                  && after.uploads[id].existingInspectionId == outcome.existing)
            && forall other :: other != id ==>
                 (other in after.uploads <==> other in s.uploads)
                 && (other in s.uploads ==> after.uploads[other] == s.uploads[other])
  {
  }

  // ----- Progress

  predicate Decides(event: Event) {
    !event.Moved?
  }

  function WithoutProgress(s: State): State {
    s.(uploads := map id | id in s.uploads :: s.uploads[id].(progress := None))
  }

  lemma ProgressIsOnlyProgress(s: State, event: Event)
    requires event.Moved?
    ensures WithoutProgress(Step(s, event)) == WithoutProgress(s)
  {
  }

  lemma DecisionsIgnoreProgress(s: State, t: State, event: Event)
    requires WithoutProgress(s) == WithoutProgress(t) && Decides(event)
    ensures WithoutProgress(Step(s, event)) == WithoutProgress(Step(t, event))
  {
    assert s.uploads.Keys == WithoutProgress(s).uploads.Keys;
    assert t.uploads.Keys == WithoutProgress(t).uploads.Keys;
    forall id | id in s.uploads ensures s.uploads[id].(progress := None) == t.uploads[id].(progress := None) {
      assert WithoutProgress(s).uploads[id] == WithoutProgress(t).uploads[id];
    }
  }

  /**
   * Progress, however late and from whichever attempt, adds no record, removes none and clears no error: strike every
   * progress event from a run and it ends with the same records but for the bar, with any number of attempts at once.
   */
  lemma {:induction false} ProgressDecidesNothing(events: seq<Event>)
    ensures WithoutProgress(Run(IDLE, events)) == WithoutProgress(Run(IDLE, Filter(events, Decides)))
  {
    if |events| == 0 {
    } else {
      var before, last := events[..|events| - 1], events[|events| - 1];
      ProgressDecidesNothing(before);
      FilterAppend(before, [last], Decides);
      assert events == before + [last];
      if Decides(last) {
        var kept := Filter(before, Decides);
        assert Filter(events, Decides) == kept + [last] && (kept + [last])[..|kept|] == kept;
        DecisionsIgnoreProgress(Run(IDLE, before), Run(IDLE, kept), last);
      } else {
        assert Filter([last], Decides) == [];
        assert Filter(events, Decides) == Filter(before, Decides);
        ProgressIsOnlyProgress(Run(IDLE, before), last);
      }
    }
  }

  /** Progress of any attempt on the inspection. */
  predicate MovesOn(attempts: seq<Attempt>, event: Event, id: string) {
    event.Moved? && event.attempt < |attempts| && attempts[event.attempt].inspectionId == id
  }

  datatype Heard = Heard(attempt: nat, fraction: real)

  /** The last progress heard of for the inspection, from whichever attempt. */
  function LastMove(attempts: seq<Attempt>, events: seq<Event>, id: string): Option<Heard> {
    if |events| == 0 then None
    else if MovesOn(attempts, events[|events| - 1], id) then
      Some(Heard(events[|events| - 1].attempt, events[|events| - 1].fraction))
    else LastMove(attempts, events[..|events| - 1], id)
  }

  /** The fraction an attempt itself last reported. */
  function OwnFraction(events: seq<Event>, attempt: nat): real {
    if |events| == 0 then 0.0
    else
      var last := events[|events| - 1];
      if last.Moved? && last.attempt == attempt then last.fraction else OwnFraction(events[..|events| - 1], attempt)
  }

  /** While the upload goes on: no further file for the inspection, and no answer about it. */
  predicate GoesOn(attempts: seq<Attempt>, event: Event, id: string) {
    && !StartsOn(event, id)
    && !(event.Answered? && event.attempt < |attempts| && attempts[event.attempt].inspectionId == id)
  }

  ghost predicate AllGoOn(attempts: seq<Attempt>, events: seq<Event>, id: string) {
    forall i :: 0 <= i < |events| ==> GoesOn(attempts, events[i], id)
  }

  /** Other inspections' attempts come and go beside it: those on this one stay where and as they are. */
  predicate KeepsAttemptsOn(before: seq<Attempt>, after: seq<Attempt>, id: string) {
    && |before| <= |after|
    && (forall k :: 0 <= k < |before| ==> after[k].inspectionId == before[k].inspectionId)
    && (forall k :: 0 <= k < |before| && before[k].inspectionId == id ==> after[k] == before[k])
    && (forall k :: |before| <= k < |after| ==> after[k].inspectionId != id)
  }

  /** While an upload goes on its record stays, and the bar shows the last progress heard of for the inspection. */
  lemma {:induction false} BarShowsTheLastMove(s: State, id: string, address: Option<string>, events: seq<Event>)
    requires AllGoOn(Step(s, Chosen(id, address)).attempts, events, id)
    ensures var started := Step(s, Chosen(id, address));
            var now := Run(started, events);
            var heard := LastMove(started.attempts, events, id);
            && id in now.uploads
            && now.uploads[id].progress == Some(if heard.None? then 0.0 else heard.value.fraction)
            && KeepsAttemptsOn(started.attempts, now.attempts, id)
  {
    if |events| == 0 {
    } else {
      var started := Step(s, Chosen(id, address));
      var front, last := events[..|events| - 1], events[|events| - 1];
      assert forall i :: 0 <= i < |front| ==> front[i] == events[i];
      BarShowsTheLastMove(s, id, address, front);
      OneMoreMove(started.attempts, Run(started, front), last, id);
    }
  }

  lemma OneMoreMove(attempts: seq<Attempt>, s: State, event: Event, id: string)
    requires KeepsAttemptsOn(attempts, s.attempts, id) && id in s.uploads && GoesOn(attempts, event, id)
    ensures KeepsAttemptsOn(attempts, Step(s, event).attempts, id) && id in Step(s, event).uploads
    ensures Step(s, event).uploads[id].progress ==
            if MovesOn(attempts, event, id) then Some(event.fraction) else s.uploads[id].progress
  {
  }

  /**
   * Exactly when the bar is the newest file's own: when the last progress heard of for its inspection came from it, or
   * none was heard, or another attempt happened to report the same.
   */
  lemma BarIsItsOwnExactly(s: State, id: string, address: Option<string>, events: seq<Event>)
    requires AllGoOn(Step(s, Chosen(id, address)).attempts, events, id)
    ensures var started := Step(s, Chosen(id, address));
            var own := OwnFraction(events, |s.attempts|);
            var heard := LastMove(started.attempts, events, id);
            && id in Run(started, events).uploads
            && (Run(started, events).uploads[id].progress == Some(own) <==>
                heard.None? || heard.value.attempt == |s.attempts| || heard.value.fraction == own)
  {
    BarShowsTheLastMove(s, id, address, events);
    OwnIsHeard(Step(s, Chosen(id, address)).attempts, events, id, |s.attempts|);
  }

  /** Its own progress is progress heard of for the inspection. */
  lemma {:induction false} OwnIsHeard(attempts: seq<Attempt>, events: seq<Event>, id: string, attempt: nat)
    requires attempt < |attempts| && attempts[attempt].inspectionId == id
    ensures var heard := LastMove(attempts, events, id);
            && (heard.None? ==> OwnFraction(events, attempt) == 0.0)
            && (heard.Some? && heard.value.attempt == attempt ==> OwnFraction(events, attempt) == heard.value.fraction)
  {
    if |events| == 0 {
    } else {
      OwnIsHeard(attempts, events[..|events| - 1], id, attempt);
    }
  }

  /** Progress comes only from attempts that are still going up. */
  ghost predicate HeardFromGoingUp(attempts: seq<Attempt>, events: seq<Event>, id: string) {
    forall i :: 0 <= i < |events| && MovesOn(attempts, events[i], id) ==>
                  attempts[events[i].attempt].outcome.Outstanding?
  }

  /**
   * So a further file may be handed over and have the bar to itself, whatever follows, just when no attempt on that
   * inspection is outstanding: otherwise the older file's progress is drawn on the newer one's bar.
   */
  lemma SecondFileHasItsBarExactly(s: State, id: string, address: Option<string>)
    ensures var started := Step(s, Chosen(id, address));
            NoneOutstanding(s, id) <==>
            forall later: seq<Event> ::
              AllGoOn(started.attempts, later, id) && HeardFromGoingUp(started.attempts, later, id) ==>
                && id in Run(started, later).uploads
                && Run(started, later).uploads[id].progress == Some(OwnFraction(later, |s.attempts|))
  {
    var started := Step(s, Chosen(id, address));
    if NoneOutstanding(s, id) {
      forall later: seq<Event> | AllGoOn(started.attempts, later, id) && HeardFromGoingUp(started.attempts, later, id)
        ensures id in Run(started, later).uploads
        ensures Run(started, later).uploads[id].progress == Some(OwnFraction(later, |s.attempts|))
      {
        BarIsItsOwnExactly(s, id, address, later);
        OnlyItMoves(s, id, address, later);
      }
    } else {
      var k :| 0 <= k < |s.attempts| && s.attempts[k].inspectionId == id && s.attempts[k].outcome.Outstanding?;
      OlderProgressIsDrawn(s, k, address);
    }
  }

  /**
   * Were progress still to come from attempts already answered, only the first file of an inspection would be sure of
   * its bar.
   */
  lemma FirstFileHasItsBarExactly(s: State, id: string, address: Option<string>)
    ensures var started := Step(s, Chosen(id, address));
            LatestOn(s.attempts, id) == -1 <==>
            forall later: seq<Event> :: AllGoOn(started.attempts, later, id) ==>
              && id in Run(started, later).uploads
              && Run(started, later).uploads[id].progress == Some(OwnFraction(later, |s.attempts|))
  {
    var started := Step(s, Chosen(id, address));
    var k := LatestOn(s.attempts, id);
    if k == -1 {
      forall later: seq<Event> | AllGoOn(started.attempts, later, id)
        ensures id in Run(started, later).uploads
        ensures Run(started, later).uploads[id].progress == Some(OwnFraction(later, |s.attempts|))
      {
        BarIsItsOwnExactly(s, id, address, later);
        OnlyItMoves(s, id, address, later);
      }
    } else {
      OlderProgressIsDrawn(s, k, address);
    }
  }

  lemma {:induction false} OnlyItMoves(s: State, id: string, address: Option<string>, events: seq<Event>)
    requires NoneOutstanding(s, id) && HeardFromGoingUp(Step(s, Chosen(id, address)).attempts, events, id)
    ensures var heard := LastMove(Step(s, Chosen(id, address)).attempts, events, id);
            heard.Some? ==> heard.value.attempt == |s.attempts|
  {
    if |events| == 0 {
    } else {
      var front := events[..|events| - 1];
      assert forall i :: 0 <= i < |front| ==> front[i] == events[i];
      OnlyItMoves(s, id, address, front);
    }
  }

  /** Two files for one inspection: the older one is done going up, and so, on its bar, is the newer one. */
  lemma OlderProgressIsDrawn(s: State, k: nat, address: Option<string>)
    requires k < |s.attempts|
    ensures var id := s.attempts[k].inspectionId;
            var started := Step(s, Chosen(id, address));
            var later := [Moved(k, 1.0)];
            && AllGoOn(started.attempts, later, id)
            && (s.attempts[k].outcome.Outstanding? ==> HeardFromGoingUp(started.attempts, later, id))
            && OwnFraction(later, |s.attempts|) == 0.0
            && id in Run(started, later).uploads && Run(started, later).uploads[id].progress == Some(1.0)
  {
    var id := s.attempts[k].inspectionId;
    var later := [Moved(k, 1.0)];
    assert later[..0] == [] && OwnFraction(later[..0], |s.attempts|) == 0.0;
    BarShowsTheLastMove(s, id, address, later);
  }
}
