/** The bar over the picked inspections (inspection-bulk-bar.tsx): one action, applied to each row in turn. */
module BulkBar {
  import opened Options
  import opened Sequences

  datatype Row = Row(id: string, name: string, technicianId: Option<string>, upcoming: bool)

  datatype Kind = Assign | Reschedule | Cancel

  /** What the dialog holds when it is sent; `reason` as it is once trimmed. */
  datatype Form = Form(kind: Kind, technicianId: string, reason: string, day: string)

  datatype Call =
    | AssignTo(id: string, technicianId: string, reason: Option<string>)
    | ReassignTo(id: string, technicianId: string, reason: Option<string>)
    | MoveTo(id: string, day: string)
    | CancelFor(id: string, because: string)

  /** What became of one call; an error may come without a message of its own. */
  datatype Answer = Done | Refused(message: Option<string>)

  datatype Failure = Failure(name: string, message: string)

  datatype Progress = Progress(done: nat, total: nat)

  // ----- Which rows, and what is sent

  function IsUpcoming(): Row -> bool {
    (row: Row) => row.upcoming
  }

  function NotOn(technicianId: string): Row -> bool {
    (row: Row) => row.technicianId != Some(technicianId)
  }

  function Targets(form: Form, rows: seq<Row>): seq<Row> {
    var upcoming := Filter(rows, IsUpcoming());
    if form.kind.Assign? then Filter(upcoming, NotOn(form.technicianId)) else upcoming
  }

  function CallFor(form: Form, row: Row): Call {
    match form.kind
    case Assign =>
      var reason := if form.reason == "" then None else Some(form.reason);
      if Truthy(row.technicianId) then ReassignTo(row.id, form.technicianId, reason)
      else AssignTo(row.id, form.technicianId, reason)
    case Reschedule => MoveTo(row.id, form.day)
    case Cancel => CancelFor(row.id, form.reason)
  }

  function CallsFor(form: Form, targets: seq<Row>): seq<Call> {
    seq(|targets|, i requires 0 <= i < |targets| => CallFor(form, targets[i]))
  }

  /** The progress shown: from none to all of them, one at a time. */
  function CountedTo(done: nat, total: nat): seq<Progress> {
    seq(done + 1, i requires 0 <= i < done + 1 => Progress(i, total))
  }

  /** The rows answered one way, in their order; `answers` says what became of the call on each target. */
  function Answered(targets: seq<Row>, answers: nat -> Answer, done: bool): seq<Row> {
    if |targets| == 0 then []
    else
      var last := |targets| - 1;
      Answered(targets[..last], answers, done) + if answers(last).Done? == done then [targets[last]] else []
  }

  function FailureOf(row: Row, answer: Answer): Failure
    requires answer.Refused?
  {
    Failure(row.name, if answer.message.Some? then answer.message.value else "The request failed.")
  }

  function Failures(targets: seq<Row>, answers: nat -> Answer): seq<Failure> {
    if |targets| == 0 then []
    else
      var last := |targets| - 1;
      Failures(targets[..last], answers) +
      if answers(last).Refused? then [FailureOf(targets[last], answers(last))] else []
  }

  class Bar {
    var open: Option<Kind>
    var technicianId: string
    var reason: string
    var day: string
    var progress: Option<Progress>
    var failures: seq<Failure>
    /**
     * What was sent, every progress that was shown, the counts of successes announced, and how often the selection was
     * cleared.
     */
    var calls: seq<Call>
    var counted: seq<Progress>
    var succeeded: seq<nat>
    var cleared: nat

    constructor ()
      ensures open.None? && progress.None? && failures == []
      ensures calls == [] && counted == [] && succeeded == [] && cleared == 0
    {
      open, technicianId, reason, day := None, "", "", "";
      progress, failures := None, [];
      calls, counted, succeeded, cleared := [], [], [], 0;
    }

    predicate Closed()
      reads this
    {
      open.None? && failures == [] && reason == "" && day == "" && technicianId == ""
    }

    method Close()
      modifies this`open, this`failures, this`reason, this`day, this`technicianId
      ensures if progress.Some? then
                open == old(open) && failures == old(failures) && reason == old(reason) && day == old(day)
                && technicianId == old(technicianId)
              else Closed()
    {
      if progress.Some? {
        return;
      }
      open, failures, reason, day, technicianId := None, [], "", "", "";
    }

    /** One row at a time: a refusal names its row and stops nothing. */
    method SendEach(targets: seq<Row>, form: Form, answers: nat -> Answer) returns (failed: seq<Failure>)
      modifies this`calls, this`counted, this`progress
      ensures calls == old(calls) + CallsFor(form, targets)
      ensures counted == old(counted) + CountedTo(|targets|, |targets|)
      ensures failed == Failures(targets, answers)
    {
      failed := [];
      progress := Some(Progress(0, |targets|));
      counted := counted + [progress.value];
      for i := 0 to |targets|
        invariant calls == old(calls) + CallsFor(form, targets[..i])
        invariant counted == old(counted) + CountedTo(i, |targets|)
        invariant failed == Failures(targets[..i], answers)
      {
        OneMoreSent(old(calls), form, targets, i);
        OneMoreAnswered(targets, answers, i);
        OneMoreCounted(old(counted), i, |targets|);
        calls := calls + [CallFor(form, targets[i])];
        if answers(i).Refused? {
          failed := failed + [FailureOf(targets[i], answers(i))];
        }
        progress := Some(Progress(i + 1, |targets|));
        counted := counted + [progress.value];
      }
      assert targets[..|targets|] == targets;
    }

    method Each(targets: seq<Row>, form: Form, answers: nat -> Answer)
      requires progress.None?
      modifies this
      ensures calls == old(calls) + CallsFor(form, targets)
      ensures counted == old(counted) + CountedTo(|targets|, |targets|) && progress.None?
      ensures var done := |targets| - |Failures(targets, answers)|;
              succeeded == old(succeeded) + if done != 0 then [done] else []
      ensures if Failures(targets, answers) == [] then Closed() && cleared == old(cleared) + 1
              else
                && failures == Failures(targets, answers) && cleared == old(cleared)
                && open == old(open) && technicianId == old(technicianId) && reason == old(reason) && day == old(day)
    {
      var failed := SendEach(targets, form, answers);
      progress := None;
      NoMoreFailuresThanTargets(targets, answers);
      var done := |targets| - |failed|;
      if done != 0 {
        succeeded := succeeded + [done];
      }
      if |failed| > 0 {
        failures := failed;
        return;
      }
      Close();
      cleared := cleared + 1;
    }

    predicate Ready(rows: seq<Row>)
      reads this
    {
      && progress.None? && failures == [] && open.Some? && Filter(rows, IsUpcoming()) != []
      && match open.value
         case Assign => technicianId != ""
         case Reschedule => day != ""
         case Cancel => |reason| >= 2
    }

    /** The dialog's button, which is there to press only when the form is ready. */
    method Submit(rows: seq<Row>, answers: nat -> Answer)
      requires Ready(rows)
      modifies this
      ensures var form := old(Form(open.value, technicianId, reason, day));
              var targets := Targets(form, rows);
              && calls == old(calls) + CallsFor(form, targets)
              && (cleared == old(cleared) + 1 <==> Failures(targets, answers) == [])
              && (cleared == old(cleared) <==> Failures(targets, answers) != [])
              && failures == Failures(targets, answers)
              && (failures == [] <==> Closed())
    {
      var form := Form(open.value, technicianId, reason, day);
      Each(Targets(form, rows), form, answers);
    }
  }

  lemma OneMoreCounted(before: seq<Progress>, done: nat, total: nat)
    ensures before + CountedTo(done + 1, total) == before + CountedTo(done, total) + [Progress(done + 1, total)]
  {
  }

  lemma OneMoreSent(before: seq<Call>, form: Form, targets: seq<Row>, i: nat)
    requires i < |targets|
    ensures before + CallsFor(form, targets[..i + 1]) ==
            before + CallsFor(form, targets[..i]) + [CallFor(form, targets[i])]
  {
  }

  lemma OneMoreAnswered(targets: seq<Row>, answers: nat -> Answer, i: nat)
    requires i < |targets|
    ensures Failures(targets[..i + 1], answers) == Failures(targets[..i], answers) +
            if answers(i).Refused? then [FailureOf(targets[i], answers(i))] else []
  {
    var more := targets[..i + 1];
    assert |more| == i + 1 && more[..i] == targets[..i] && more[i] == targets[i];
  }

  lemma {:induction false} NoMoreFailuresThanTargets(targets: seq<Row>, answers: nat -> Answer)
    ensures |Failures(targets, answers)| <= |targets|
  {
    if |targets| == 0 {
    } else {
      NoMoreFailuresThanTargets(targets[..|targets| - 1], answers);
    }
  }

  /** When the button is there to press. */
  lemma ReadyMeans(bar: Bar, rows: seq<Row>)
    ensures bar.Ready(rows) <==>
            && bar.progress.None? && bar.failures == [] && (exists row :: row in rows && row.upcoming)
            && (|| (bar.open == Some(Assign) && bar.technicianId != "")
                || (bar.open == Some(Reschedule) && bar.day != "")
                || (bar.open == Some(Cancel) && |bar.reason| >= 2))
  {
    var upcoming := Filter(rows, IsUpcoming());
    if upcoming != [] {
      assert upcoming[0] in upcoming;
    }
    if row :| row in rows && row.upcoming {
      assert row in upcoming;
    }
  }

  // ----- Nothing is lost

  /** One more target: its row goes to one side, and to the failures just when it is refused. */
  lemma OneMore(targets: seq<Row>, row: Row, answers: nat -> Answer)
    ensures var more, answer := targets + [row], answers(|targets|);
            && Answered(more, answers, true) == Answered(targets, answers, true) + (if answer.Done? then [row] else [])
            && Answered(more, answers, false) ==
               Answered(targets, answers, false) + (if answer.Done? then [] else [row])
            && Failures(more, answers) ==
               Failures(targets, answers) + (if answer.Done? then [] else [FailureOf(row, answer)])
  {
    assert (targets + [row])[..|targets|] == targets;
  }

  lemma {:induction false} TargetsSplit(targets: seq<Row>, answers: nat -> Answer)
    ensures multiset(targets) ==
            multiset(Answered(targets, answers, true)) + multiset(Answered(targets, answers, false))
    ensures |targets| == |Answered(targets, answers, true)| + |Answered(targets, answers, false)|
  {
    if |targets| == 0 {
    } else {
      var before, row := targets[..|targets| - 1], targets[|targets| - 1];
      assert targets == before + [row];
      TargetsSplit(before, answers);
      OneMore(before, row, answers);
      assert multiset(targets) == multiset(before) + multiset{row};
    }
  }

  /** The failures name the refused rows, in their order. */
  lemma {:induction false} FailuresNameTheRefused(targets: seq<Row>, answers: nat -> Answer)
    ensures var refused := Answered(targets, answers, false);
            && |Failures(targets, answers)| == |refused|
            && forall k :: 0 <= k < |refused| ==> Failures(targets, answers)[k].name == refused[k].name
  {
    if |targets| == 0 {
    } else {
      var before, row := targets[..|targets| - 1], targets[|targets| - 1];
      assert targets == before + [row];
      FailuresNameTheRefused(before, answers);
      OneMore(before, row, answers);
    }
  }

  /**
   * Every picked row comes to exactly one end, whatever the server answers: left out as done or cancelled, already on
   * that technician (when assigning), changed, or listed by name as not changed.
   */
  lemma EveryRowIsAccountedFor(form: Form, rows: seq<Row>, answers: nat -> Answer)
    ensures var upcoming := Filter(rows, IsUpcoming());
            var leftOut := Filter(rows, Not(IsUpcoming()));
            var already := if form.kind.Assign? then Filter(upcoming, Not(NotOn(form.technicianId))) else [];
            var changed := Answered(Targets(form, rows), answers, true);
            var failed := Answered(Targets(form, rows), answers, false);
            && multiset(rows) == multiset(leftOut) + multiset(already) + multiset(changed) + multiset(failed)
            && |rows| == |leftOut| + |already| + |changed| + |failed|
            && |failed| == |Failures(Targets(form, rows), answers)|
            && |rows| - |upcoming| == |leftOut|
  {
    var upcoming := Filter(rows, IsUpcoming());
    FilterSplits(rows, IsUpcoming());
    if form.kind.Assign? {
      FilterSplits(upcoming, NotOn(form.technicianId));
    }
    TargetsSplit(Targets(form, rows), answers);
    FailuresNameTheRefused(Targets(form, rows), answers);
  }

  /**
   * What is sent for each target, in its own place: the day it is moved to, the reason it is cancelled for, or the
   * technician it goes to, as a change of technician when it has one, with the reason if there is any.
   */
  lemma EachCallSaysWhatWasAsked(form: Form, rows: seq<Row>, i: nat)
    requires i < |Targets(form, rows)|
    ensures var target, calls := Targets(form, rows)[i], CallsFor(form, Targets(form, rows));
            && |calls| == |Targets(form, rows)|
            && (form.kind.Reschedule? ==> calls[i].MoveTo? && calls[i].id == target.id && calls[i].day == form.day)
            && (form.kind.Cancel? ==>
                  calls[i].CancelFor? && calls[i].id == target.id && calls[i].because == form.reason)
            && (form.kind.Assign? ==>
                  && (if target.technicianId.Some? && target.technicianId.value != "" then calls[i].ReassignTo?
                      else calls[i].AssignTo?)
                  && calls[i].id == target.id && calls[i].technicianId == form.technicianId
                  && calls[i].reason == if form.reason == "" then None else Some(form.reason))
  {
  }

  /** The targets are the upcoming rows in their order, without those already on the technician when assigning. */
  lemma TargetsAreExactly(form: Form, rows: seq<Row>)
    ensures forall row :: row in Targets(form, rows) <==>
              row in rows && row.upcoming && (form.kind.Assign? ==> row.technicianId != Some(form.technicianId))
  {
  }

  /** Each failure names its row and says what the server said, or that the request failed. */
  lemma {:induction false} FailuresSayWhatWasSaid(targets: seq<Row>, answers: nat -> Answer, failure: Failure)
    ensures failure in Failures(targets, answers) <==>
            exists i: nat :: i < |targets| && answers(i).Refused? && failure.name == targets[i].name
                             && failure.message == if answers(i).message.Some? then answers(i).message.value
                                                   else "The request failed."
  {
    if |targets| == 0 {
    } else {
      FailuresSayWhatWasSaid(targets[..|targets| - 1], answers, failure);
    }
  }

  ghost predicate DistinctIds(rows: seq<Row>) {
    forall i, j :: 0 <= i < j < |rows| ==> rows[i].id != rows[j].id
  }

  /** No row is sent twice, and none that the action does not apply to: the calls name the targets, in order. */
  lemma EachRowIsSentOnce(form: Form, rows: seq<Row>)
    requires DistinctIds(rows)
    ensures var calls := CallsFor(form, Targets(form, rows));
            && (forall i, j :: 0 <= i < j < |calls| ==> calls[i].id != calls[j].id)
            && forall row :: row in rows ==>
                 ((exists i :: 0 <= i < |calls| && calls[i].id == row.id)
                  <==> row.upcoming && !(form.kind.Assign? && row.technicianId == Some(form.technicianId)))
  {
    var targets := Targets(form, rows);
    var calls := CallsFor(form, targets);
    FilterKeepsDistinctIds(rows, IsUpcoming());
    if form.kind.Assign? {
      FilterKeepsDistinctIds(Filter(rows, IsUpcoming()), NotOn(form.technicianId));
    }
    assert DistinctIds(targets);
    assert forall i :: 0 <= i < |calls| ==> calls[i].id == targets[i].id;
    forall row | row in rows
      ensures (exists i :: 0 <= i < |calls| && calls[i].id == row.id) <==> row in targets
    {
      if row in targets {
        var i :| 0 <= i < |targets| && targets[i] == row;
        assert calls[i].id == row.id;
      }
      if i :| 0 <= i < |calls| && calls[i].id == row.id {
        assert targets[i] in targets && targets[i] in rows;
      }
    }
  }

  lemma {:induction false} FilterKeepsDistinctIds(rows: seq<Row>, p: Row -> bool)
    requires DistinctIds(rows)
    ensures DistinctIds(Filter(rows, p))
  {
    if |rows| == 0 {
    } else {
      var rest := Filter(rows[1..], p);
      FilterKeepsDistinctIds(rows[1..], p);
      forall j | 0 <= j < |rest| ensures rest[j].id != rows[0].id {
        assert rest[j] in rest && rest[j] in rows[1..];
      }
    }
  }

  /** The dialog closes and lets the selection go exactly when the server took every call. */
  lemma {:induction false} ClearedWhenAllWereTaken(targets: seq<Row>, answers: nat -> Answer)
    ensures Failures(targets, answers) == [] <==> forall i: nat :: i < |targets| ==> answers(i).Done?
  {
    if |targets| == 0 {
    } else {
      var before, row := targets[..|targets| - 1], targets[|targets| - 1];
      assert targets == before + [row];
      ClearedWhenAllWereTaken(before, answers);
      OneMore(before, row, answers);
    }
  }
}
