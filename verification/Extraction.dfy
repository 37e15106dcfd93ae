/**
 * The floor-plan extraction poller (`extract` in floor-plan-manager.tsx). The function suspends at every `await`, so
 * one call is a task that other clicks, answers and the unmount run in between; a step is what happens from one
 * suspension to the next. Nothing in the state forces there to be one task: that is what the guard is for.
 */
module Extraction {
  import opened Options

  datatype Summary = Summary(detected: nat, created: nat, present: nat)

  datatype Failure = TimedOut | JobFailed(code: Option<string>) | Thrown(text: string)

  /** Where a task is suspended. */
  datatype Phase =
    | Starting
    | Waiting(jobId: string)
    | Polling(jobId: string)
    | Refetching(result: Result)

  datatype Result = Completed(summary: Summary) | Failed(failure: Failure)

  /** One call: which it was, and the plan that was the latest when it was made. */
  datatype Task = Task(run: nat, plan: string, phase: Phase)

  /** `Cleared` by a change of scope and `Other` by another action, which share the line with the poller. */
  datatype Message = Nothing | Detected(run: nat, summary: Summary) | Cleared | Other

  datatype Answer = Pending | JobCompleted(summary: Summary) | JobFailedWith(code: Option<string>)

  datatype Poll = Poll(run: nat, plan: string, jobId: string)

  /** How a call ended. */
  datatype Ending = Settled(result: Result) | Crashed | Abandoned

  datatype State = State(
    latest: Option<string>,
    active: bool,
    tasks: seq<Task>,
    jobId: Option<string>,
    message: Message,
    error: Option<(nat, Failure)>,
    unmounted: bool,
    started: seq<string>,
    polls: seq<Poll>,
    endings: map<nat, Ending>)

  datatype Event =
    | Click
    | Started(task: nat, jobId: string)
    | StartRejected(task: nat, text: string)
    | TimerFired(task: nat)
    | Answered(task: nat, answer: Answer)
    | PollRejected(task: nat, text: string)
    | Refetched(task: nat)
    | RefetchRejected(task: nat, text: string)
    | Unmount
    | PlansChanged(latest: Option<string>)
    | ScopeChanged
    | OtherMessage

  const TIMED_OUT := "FLOOR_PLAN_EXTRACTION_TIMED_OUT"

  function FailureOf(code: Option<string>): Failure {
    if code == Some(TIMED_OUT) then TimedOut else JobFailed(code)
  }

  /** The `finally` block: every way out of a call goes through it. */
  function Exit(s: State, task: nat, ending: Ending): State
    requires task < |s.tasks|
  {
    s.(tasks := s.tasks[..task] + s.tasks[task + 1..],
       active := false,
       jobId := None,
       endings := s.endings[s.tasks[task].run := ending])
  }

  /** The `catch` block, then `finally`. */
  function Crash(s: State, task: nat, text: string): State
    requires task < |s.tasks|
  {
    Exit(s.(error := Some((s.tasks[task].run, Thrown(text)))), task, Crashed)
  }

  function Move(s: State, task: nat, phase: Phase): State
    requires task < |s.tasks|
  {
    s.(tasks := s.tasks[task := s.tasks[task].(phase := phase)])
  }

  /** The task an event resumes, which has to be suspended where that event resumes it. */
  predicate Resumes(s: State, event: Event) {
    match event
    case Started(t, _) => t < |s.tasks| && s.tasks[t].phase.Starting?
    case StartRejected(t, _) => t < |s.tasks| && s.tasks[t].phase.Starting?
    case TimerFired(t) => t < |s.tasks| && s.tasks[t].phase.Waiting?
    case Answered(t, _) => t < |s.tasks| && s.tasks[t].phase.Polling?
    case PollRejected(t, _) => t < |s.tasks| && s.tasks[t].phase.Polling?
    case Refetched(t) => t < |s.tasks| && s.tasks[t].phase.Refetching?
    case RefetchRejected(t, _) => t < |s.tasks| && s.tasks[t].phase.Refetching?
    case Click => s.latest.Some? && !s.active && !s.unmounted
    case _ => true
  }

  function Step(s: State, event: Event): State {
    if !Resumes(s, event) then s else
    match event
    case Click =>
      s.(active := true, message := Nothing, error := None,
         tasks := s.tasks + [Task(|s.started|, s.latest.value, Starting)],
         started := s.started + [s.latest.value])
    case Started(t, job) => Move(s, t, Waiting(job)).(jobId := Some(job))
    case StartRejected(t, text) => Crash(s, t, text)
    case TimerFired(t) =>
      if s.unmounted then Exit(s, t, Abandoned)
      else
        var job := s.tasks[t].phase.jobId;
        Move(s, t, Polling(job)).(polls := s.polls + [Poll(s.tasks[t].run, s.tasks[t].plan, job)])
    case Answered(t, answer) =>
      var run := s.tasks[t].run;
      (match answer
       case Pending => Move(s, t, Waiting(s.tasks[t].phase.jobId))
       case JobCompleted(summary) =>
         Move(s, t, Refetching(Completed(summary))).(message := Detected(run, summary), error := None)
       case JobFailedWith(code) =>
         Move(s, t, Refetching(Failed(FailureOf(code)))).(error := Some((run, FailureOf(code)))))
    case PollRejected(t, text) => Crash(s, t, text)
    case Refetched(t) => Exit(s, t, Settled(s.tasks[t].phase.result))
    case RefetchRejected(t, text) => Crash(s, t, text)
    case Unmount => s.(unmounted := true)
    case PlansChanged(latest) => s.(latest := latest)
    case ScopeChanged => s.(message := Cleared)
    case OtherMessage => s.(message := Other)
  }

  function Mounted(latest: Option<string>): State {
    State(latest, false, [], None, Nothing, None, false, [], [], map[])
  }

  function Run(s: State, events: seq<Event>): State {
    if |events| == 0 then s else Step(Run(s, events[..|events| - 1]), events[|events| - 1])
  }

  // ----- The component

  /** The refs and state the function reads and writes, and the calls it is in the middle of. */
  class Poller {
    var latest: Option<string>
    var extractionRequestActive: bool
    var calls: seq<Task>
    var extractingJobId: Option<string>
    var message: Message
    var extractionError: Option<(nat, Failure)>
    var aborted: bool
    var started: seq<string>
    var polls: seq<Poll>
    var endings: map<nat, Ending>

    ghost function Now(): State
      reads this
    {
      State(latest, extractionRequestActive, calls, extractingJobId,
            message, extractionError, aborted, started, polls, endings)
    }

    constructor (latest: Option<string>)
      ensures Now() == Mounted(latest)
    {
      this.latest := latest;
      extractionRequestActive, calls, extractingJobId := false, [], None;
      message, extractionError, aborted := Nothing, None, false;
      started, polls, endings := [], [], map[];
    }

    method Extract()
      modifies this
      ensures Now() == Step(old(Now()), Click)
    {
      if latest.None? || extractionRequestActive || aborted {
        return;
      }
      extractionRequestActive := true;
      message := Nothing;
      extractionError := None;
      calls := calls + [Task(|started|, latest.value, Starting)];
      started := started + [latest.value];
    }

    method Finally(call: nat, ending: Ending)
      requires call < |calls|
      modifies this
      ensures Now() == Exit(old(Now()), call, ending)
    {
      endings := endings[calls[call].run := ending];
      calls := calls[..call] + calls[call + 1..];
      extractionRequestActive := false;
      extractingJobId := None;
    }

    method Catch(call: nat, text: string)
      requires call < |calls|
      modifies this
      ensures Now() == Crash(old(Now()), call, text)
    {
      extractionError := Some((calls[call].run, Thrown(text)));
      Finally(call, Crashed);
    }

    method AfterStart(call: nat, answer: Option<string>, text: string)
      requires call < |calls| && calls[call].phase.Starting?
      modifies this
      ensures Now() == Step(old(Now()), if answer.Some? then Started(call, answer.value) else StartRejected(call, text))
    {
      if answer.None? {
        Catch(call, text);
      } else {
        extractingJobId := answer;
        calls := calls[call := calls[call].(phase := Waiting(answer.value))];
      }
    }

    method AfterDelay(call: nat)
      requires call < |calls| && calls[call].phase.Waiting?
      modifies this
      ensures Now() == Step(old(Now()), TimerFired(call))
    {
      if aborted {
        Finally(call, Abandoned);
      } else {
        var task := calls[call];
        polls := polls + [Poll(task.run, task.plan, task.phase.jobId)];
        calls := calls[call := task.(phase := Polling(task.phase.jobId))];
      }
    }

    method AfterPoll(call: nat, answer: Option<Answer>, text: string)
      requires call < |calls| && calls[call].phase.Polling?
      modifies this
      ensures Now() == Step(old(Now()), if answer.Some? then Answered(call, answer.value) else PollRejected(call, text))
    {
      if answer.None? {
        Catch(call, text);
        return;
      }
      var task := calls[call];
      match answer.value
      case Pending =>
        calls := calls[call := task.(phase := Waiting(task.phase.jobId))];
      case JobCompleted(summary) =>
        message := Detected(task.run, summary);
        extractionError := None;
        calls := calls[call := task.(phase := Refetching(Completed(summary)))];
      case JobFailedWith(code) =>
        extractionError := Some((task.run, FailureOf(code)));
        calls := calls[call := task.(phase := Refetching(Failed(FailureOf(code))))];
    }

    method AfterRefetch(call: nat, rejected: Option<string>)
      requires call < |calls| && calls[call].phase.Refetching?
      modifies this
      ensures Now() ==
              Step(old(Now()), if rejected.None? then Refetched(call) else RefetchRejected(call, rejected.value))
    {
      if rejected.Some? {
        Catch(call, rejected.value);
      } else {
        Finally(call, Settled(calls[call].phase.result));
      }
    }
  }

  // ----- Every interleaving

  /** The job on screen is the one call's own, and there is none while nothing runs. */
  predicate JobIsTheTasks(s: State) {
    if |s.tasks| == 0 then s.jobId.None?
    else match s.tasks[0].phase
      case Starting => s.jobId.None?
      case Waiting(job) => s.jobId == Some(job)
      case Polling(job) => s.jobId == Some(job)
      case Refetching(_) => s.jobId.Some?
  }

  predicate SingleFlight(s: State) {
    && |s.tasks| <= 1
    && (s.active <==> |s.tasks| == 1)
    && JobIsTheTasks(s)
    && (|s.tasks| == 1 ==>
          && s.tasks[0].run == |s.started| - 1
          && s.tasks[0].plan == s.started[s.tasks[0].run])
  }

  predicate PollsCapturedPlan(s: State) {
    forall k :: 0 <= k < |s.polls| ==> s.polls[k].run < |s.started| && s.polls[k].plan == s.started[s.polls[k].run]
  }

  /** What a settled answer has left on screen, unless something else has since used the line. */
  predicate Shows(s: State, run: nat, result: Result) {
    match result
    case Completed(summary) =>
      s.error.None? && (s.message == Detected(run, summary) || s.message.Cleared? || s.message.Other?)
    case Failed(failure) => s.error == Some((run, failure)) && !(s.message.Detected? && s.message.run == run)
  }

  predicate ShowsOutcome(s: State) {
    && (forall run :: run in s.endings ==> run < |s.started|)
    && (|s.tasks| == 0 && |s.started| > 0 ==>
          && |s.started| - 1 in s.endings
          && (s.endings[|s.started| - 1].Settled? ==> Shows(s, |s.started| - 1, s.endings[|s.started| - 1].result)))
    && (|s.tasks| == 1 ==>
          match s.tasks[0].phase
          case Refetching(result) => Shows(s, s.tasks[0].run, result)
          case _ => !s.message.Detected? && s.error.None?)
  }

  lemma StepKeepsFlight(s: State, event: Event)
    requires SingleFlight(s)
    ensures SingleFlight(Step(s, event))
  {
  }

  lemma StepKeepsPolls(s: State, event: Event)
    requires SingleFlight(s) && PollsCapturedPlan(s)
    ensures PollsCapturedPlan(Step(s, event))
  {
  }

  lemma StepKeepsOutcome(s: State, event: Event)
    requires SingleFlight(s) && ShowsOutcome(s)
    ensures ShowsOutcome(Step(s, event))
  {
  }

  /**
   * Over every interleaving of clicks, answers, rejections and an unmount: at most one call is in flight and the
   * guard says whether one is, the job on screen is its own, and every poll asks about the plan that was the latest
   * when its call was made, whatever has been uploaded since.
   */
  lemma {:induction false} ExtractionIsSingleFlight(latest: Option<string>, events: seq<Event>)
    ensures SingleFlight(Run(Mounted(latest), events)) && PollsCapturedPlan(Run(Mounted(latest), events))
  {
    if |events| == 0 {
    } else {
      ExtractionIsSingleFlight(latest, events[..|events| - 1]);
      StepKeepsFlight(Run(Mounted(latest), events[..|events| - 1]), events[|events| - 1]);
      StepKeepsPolls(Run(Mounted(latest), events[..|events| - 1]), events[|events| - 1]);
    }
  }

  /**
   * And it tells the truth: once nothing is in flight, a last call that completed has left its message and no error,
   * and one whose job failed its error and no message of its own.
   */
  lemma {:induction false} ExtractionShowsItsOutcome(latest: Option<string>, events: seq<Event>)
    ensures ShowsOutcome(Run(Mounted(latest), events))
  {
    if |events| == 0 {
    } else {
      ExtractionShowsItsOutcome(latest, events[..|events| - 1]);
      ExtractionIsSingleFlight(latest, events[..|events| - 1]);
      StepKeepsOutcome(Run(Mounted(latest), events[..|events| - 1]), events[|events| - 1]);
    }
  }

  // ----- What is on screen is what was answered

  /** The one call of a run, where it is suspended. */
  predicate OneCall(s: State, phase: Phase) {
    |s.started| > 0 && s.tasks == [Task(|s.started| - 1, s.started[|s.started| - 1], phase)]
  }

  lemma FlightIsOneCall(latest: Option<string>, events: seq<Event>)
    requires |Run(Mounted(latest), events).tasks| == 1
    ensures var s := Run(Mounted(latest), events); s.active && OneCall(s, s.tasks[0].phase)
  {
    ExtractionIsSingleFlight(latest, events);
  }

  /** A click with a plan to read starts a call on it, with nothing left on screen of the one before. */
  lemma ClickStarts(latest: Option<string>, events: seq<Event>)
    ensures var s := Run(Mounted(latest), events);
            var after := Step(s, Click);
            if s.latest.Some? && |s.tasks| == 0 && !s.unmounted then
              && OneCall(after, Starting) && after.started == s.started + [s.latest.value] && after.active
              && after.message.Nothing? && after.error.None?
            else after == s
  {
    ExtractionIsSingleFlight(latest, events);
  }

  /** The job a start was answered with is the one on screen and the one that every later poll asks about. */
  lemma {:induction false} StartedJobIsPolled(s: State, job: string)
    requires OneCall(s, Starting)
    ensures var started := Step(s, Started(0, job)); started.jobId == Some(job) && OneCall(started, Waiting(job))
  {
  }

  /** A timer asks about the job waited for, on behalf of the plan captured, or gives the call up once unmounted. */
  lemma {:induction false} TimerPolls(s: State, job: string)
    requires OneCall(s, Waiting(job))
    ensures var run := |s.started| - 1;
            var after := Step(s, TimerFired(0));
            if s.unmounted then
              |after.tasks| == 0 && after.polls == s.polls && run in after.endings && after.endings[run].Abandoned?
            else
              && after.polls == s.polls + [Poll(run, s.started[run], job)] && OneCall(after, Polling(job))
              && after.jobId == s.jobId
  {
  }

  /** Nothing of this is about the call: it neither resumes one nor, while one is in flight, starts one. */
  predicate IsAside(event: Event) {
    event.Click? || event.Unmount? || event.PlansChanged? || event.ScopeChanged? || event.OtherMessage?
  }

  predicate UsesTheLine(event: Event) {
    event.ScopeChanged? || event.OtherMessage?
  }

  /** Meanwhile the call stays where it is, its error stays, and its message does until another uses the line. */
  lemma {:induction false} AsideLeavesTheCall(s: State, events: seq<Event>)
    requires s.active && forall i :: 0 <= i < |events| ==> IsAside(events[i])
    ensures var later := Run(s, events);
            && later.active && later.tasks == s.tasks && later.error == s.error && later.endings == s.endings
            && later.started == s.started
            && (if exists i :: 0 <= i < |events| && UsesTheLine(events[i]) then
                  later.message.Cleared? || later.message.Other?
                else later.message == s.message)
  {
    if |events| == 0 {
    } else {
      var front := events[..|events| - 1];
      assert forall i :: 0 <= i < |front| ==> front[i] == events[i];
      AsideLeavesTheCall(s, front);
    }
  }

  lemma {:induction false} CompletedIsShown(s: State, job: string, summary: Summary, between: seq<Event>)
    requires s.active && OneCall(s, Polling(job))
    requires forall i :: 0 <= i < |between| ==> IsAside(between[i])
    ensures ShowsCompleted(s, summary, between)
  {
    AsideLeavesTheCall(Step(s, Answered(0, JobCompleted(summary))), between);
  }

  ghost predicate ShowsCompleted(s: State, summary: Summary, between: seq<Event>)
    requires |s.started| > 0
  {
    var run: nat := |s.started| - 1;
    var told := Step(s, Answered(0, JobCompleted(summary)));
    var ended := Step(Run(told, between), Refetched(0));
    && told.message == Detected(run, summary) && told.error.None?
    && ended.error.None? && |ended.tasks| == 0
    && run in ended.endings && ended.endings[run] == Settled(Completed(summary))
    && if exists i :: 0 <= i < |between| && UsesTheLine(between[i]) then ended.message.Cleared? || ended.message.Other?
       else ended.message == Detected(run, summary)
  }

  /**
   * A completed job: whatever else happens until the lists are refetched, its message stands with its own numbers
   * (until another uses the line), there is no error, and that is how the call ends.
   */
  lemma CompletedAnswerIsShown(latest: Option<string>, events: seq<Event>, summary: Summary, between: seq<Event>)
    requires var s := Run(Mounted(latest), events); |s.tasks| == 1 && s.tasks[0].phase.Polling?
    requires forall i :: 0 <= i < |between| ==> IsAside(between[i])
    ensures |Run(Mounted(latest), events).started| > 0 && ShowsCompleted(Run(Mounted(latest), events), summary, between)
  {
    var s := Run(Mounted(latest), events);
    FlightIsOneCall(latest, events);
    CompletedIsShown(s, s.tasks[0].phase.jobId, summary, between);
  }

  lemma {:induction false} FailedIsShown(s: State, job: string, code: Option<string>, between: seq<Event>)
    requires s.active && OneCall(s, Polling(job)) && !s.message.Detected?
    requires forall i :: 0 <= i < |between| ==> IsAside(between[i])
    ensures ShowsFailed(s, code, between)
  {
    AsideLeavesTheCall(Step(s, Answered(0, JobFailedWith(code))), between);
  }

  predicate ShowsFailed(s: State, code: Option<string>, between: seq<Event>)
    requires |s.started| > 0
  {
    var run: nat := |s.started| - 1;
    var failure := if code == Some("FLOOR_PLAN_EXTRACTION_TIMED_OUT") then TimedOut else JobFailed(code);
    var told := Step(s, Answered(0, JobFailedWith(code)));
    var ended := Step(Run(told, between), Refetched(0));
    && told.error == Some((run, failure)) && told.message == s.message && !told.message.Detected?
    && ended.error == Some((run, failure)) && !ended.message.Detected? && |ended.tasks| == 0
    && run in ended.endings && ended.endings[run] == Settled(Failed(failure))
  }

  /** A failed job: its error stands, the time-out told from every other code, with no message of its own. */
  lemma FailedAnswerIsShown(latest: Option<string>, events: seq<Event>, code: Option<string>, between: seq<Event>)
    requires var s := Run(Mounted(latest), events); |s.tasks| == 1 && s.tasks[0].phase.Polling?
    requires forall i :: 0 <= i < |between| ==> IsAside(between[i])
    ensures |Run(Mounted(latest), events).started| > 0 && ShowsFailed(Run(Mounted(latest), events), code, between)
  {
    var s := Run(Mounted(latest), events);
    FlightIsOneCall(latest, events);
    ExtractionShowsItsOutcome(latest, events);
    FailedIsShown(s, s.tasks[0].phase.jobId, code, between);
  }

  /** No answer yet: nothing on screen changes, and the same job is waited for. */
  lemma PendingAnswerChangesNothing(latest: Option<string>, events: seq<Event>)
    requires var s := Run(Mounted(latest), events); |s.tasks| == 1 && s.tasks[0].phase.Polling?
    ensures var s := Run(Mounted(latest), events);
            var after := Step(s, Answered(0, Pending));
            && after == s.(tasks := after.tasks) && OneCall(after, Waiting(s.tasks[0].phase.jobId))
  {
    FlightIsOneCall(latest, events);
  }

  lemma {:induction false} RejectionEnds(s: State, rejection: Event, text: string)
    requires |s.tasks| == 1 && OneCall(s, s.tasks[0].phase)
    requires || (s.tasks[0].phase.Starting? && rejection == StartRejected(0, text))
             || (s.tasks[0].phase.Polling? && rejection == PollRejected(0, text))
    ensures EndsInRejection(s, rejection, text)
  {
  }

  predicate EndsInRejection(s: State, rejection: Event, text: string)
    requires |s.started| > 0
  {
    var run: nat := |s.started| - 1;
    var after := Step(s, rejection);
    && after.error == Some((run, Thrown(text))) && after.message == s.message && |after.tasks| == 0
    && run in after.endings && after.endings[run].Crashed?
  }

  /** A request that fails, the start's or a poll's, ends the call with its own text as the error and no new message. */
  lemma RejectionIsShown(latest: Option<string>, events: seq<Event>, rejection: Event, text: string)
    requires var s := Run(Mounted(latest), events);
             && |s.tasks| == 1
             && (|| (s.tasks[0].phase.Starting? && rejection == StartRejected(0, text))
                 || (s.tasks[0].phase.Polling? && rejection == PollRejected(0, text)))
    ensures |Run(Mounted(latest), events).started| > 0 && EndsInRejection(Run(Mounted(latest), events), rejection, text)
  {
    FlightIsOneCall(latest, events);
    RejectionEnds(Run(Mounted(latest), events), rejection, text);
  }

  /** Every way out releases the guard and the job, so the next click is taken. */
  lemma ExitReleases(latest: Option<string>, events: seq<Event>, event: Event)
    requires var s := Run(Mounted(latest), events); |s.tasks| == 1 && |Step(s, event).tasks| == 0
    ensures var s := Step(Run(Mounted(latest), events), event);
            && !s.active && s.jobId.None? && |s.started| - 1 in s.endings
            && (s.latest.Some? && !s.unmounted ==> |Step(s, Click).tasks| == 1)
  {
    ExtractionIsSingleFlight(latest, events);
    ExtractionShowsItsOutcome(latest, events);
    StepKeepsOutcome(Run(Mounted(latest), events), event);
  }

  /**
   * Only a rejected refetch after a completed job would leave both on screen: the message, and that error. React
   * Query's own refetch does not reject unless it is told to, and nothing in the console tells it to.
   */
  lemma RejectedRefetchLeavesBoth(latest: Option<string>, events: seq<Event>, text: string)
    requires var s := Run(Mounted(latest), events); |s.tasks| == 1 && s.tasks[0].phase.Refetching?
    ensures var s := Run(Mounted(latest), events);
            var after := Step(s, RefetchRejected(0, text));
            && after.message == s.message && after.error == Some((|s.started| - 1, Thrown(text))) && |after.tasks| == 0
            && (s.tasks[0].phase.result.Completed? ==>
                  after.message == Detected(|s.started| - 1, s.tasks[0].phase.result.summary)
                  || after.message.Cleared? || after.message.Other?)
  {
    ExtractionIsSingleFlight(latest, events);
    ExtractionShowsItsOutcome(latest, events);
  }
}
