/** What the import dock says aloud (import-dock.tsx): one notice an import, however often the list is polled. */
module Announcements {
  import opened Options
  import opened Sequences

  datatype JobState = Reading | Imported | Failed

  datatype Job = Job(
    id: string,
    state: JobState,
    address: Option<string>,
    inspectionId: Option<string>,
    requestedInspectionId: Option<string>,
    inspectionType: Option<string>,
    scheduledAt: Option<string>,
    errorCode: Option<string>)

  datatype Description =
    | OnTheInspection
    | SavedElsewhere(inspectionType: Option<string>, scheduledAt: Option<string>)
    | NotRead(reason: string)

  /** `link` is the review the notice opens, when the job names an inspection. */
  datatype Toast = Toast(jobId: string, success: bool, title: string, description: Description, link: Option<string>)

  predicate PlacedElsewhere(job: Job) {
    Truthy(job.requestedInspectionId) && Truthy(job.inspectionId) && job.requestedInspectionId != job.inspectionId
  }

  function ToastFor(job: Job): Toast {
    var link := if Truthy(job.inspectionId)
                then Some("/inspections/" + job.inspectionId.value + "?import=" + job.id) else None;
    if job.state.Imported? then
      Toast(job.id, true,
            if Truthy(job.address) then job.address.value + " imported" else "Report imported",
            if PlacedElsewhere(job) then SavedElsewhere(job.inspectionType, job.scheduledAt) else OnTheInspection,
            link)
    else
      Toast(job.id, false,
            if Truthy(job.address) then job.address.value + " could not be imported" else "Import failed",
            NotRead(if job.errorCode.Some? then job.errorCode.value else "The report could not be read."),
            link)
  }

  function ToastsFor(jobs: seq<Job>): seq<Toast> {
    seq(|jobs|, i requires 0 <= i < |jobs| => ToastFor(jobs[i]))
  }

  function IdsOf(jobs: seq<Job>): set<string> {
    set job | job in jobs :: job.id
  }

  /** The jobs to announce: each the first time it is seen outside reading, in the order they are seen. */
  function Finished(seen: seq<Job>): seq<Job> {
    if |seen| == 0 then []
    else
      var before, job := Finished(seen[..|seen| - 1]), seen[|seen| - 1];
      if job.state.Reading? || job.id in IdsOf(before) then before else before + [job]
  }

  class Announcer {
    var announced: set<string>
    var toasts: seq<Toast>
    /** Every job of every poll so far. */
    ghost var seen: seq<Job>

    ghost predicate Valid()
      reads this
    {
      announced == IdsOf(Finished(seen)) && toasts == ToastsFor(Finished(seen))
    }

    constructor ()
      ensures Valid() && seen == []
    {
      announced, toasts, seen := {}, [], [];
    }

    /** The effect on the polled list. */
    method OnImports(imports: seq<Job>)
      requires Valid()
      modifies this
      ensures Valid() && seen == old(seen) + imports
    {
      for i := 0 to |imports|
        invariant Valid() && seen == old(seen) + imports[..i]
      {
        var job := imports[i];
        assert (seen + [job])[..|seen|] == seen;
        assert imports[..i + 1] == imports[..i] + [job];
        ghost var before := Finished(seen);
        seen := seen + [job];
        if job.state.Reading? || job.id in announced {
          continue;
        }
        announced := announced + {job.id};
        toasts := toasts + [ToastFor(job)];
        OneMore(before, job);
      }
      assert imports[..|imports|] == imports;
    }
  }

  lemma OneMore(jobs: seq<Job>, job: Job)
    ensures IdsOf(jobs + [job]) == IdsOf(jobs) + {job.id}
    ensures ToastsFor(jobs + [job]) == ToastsFor(jobs) + [ToastFor(job)]
  {
    assert forall other :: other in jobs + [job] <==> other in jobs || other == job;
  }

  // ----- Exactly once

  /** The first sighting of a job outside reading. */
  predicate FirstSighting(seen: seq<Job>, at: nat) {
    && at < |seen|
    && !seen[at].state.Reading?
    && forall k :: 0 <= k < at && seen[k].id == seen[at].id ==> seen[k].state.Reading?
  }

  function About(id: string): Toast -> bool {
    (toast: Toast) => toast.jobId == id
  }

  /** The job was seen outside reading. */
  predicate SeenDone(seen: seq<Job>, id: string) {
    |seen| > 0 && ((seen[|seen| - 1].id == id && !seen[|seen| - 1].state.Reading?) || SeenDone(seen[..|seen| - 1], id))
  }

  lemma {:induction false} SeenDoneMeans(seen: seq<Job>, id: string, k: nat)
    requires k < |seen| && seen[k].id == id && !seen[k].state.Reading?
    ensures SeenDone(seen, id)
  {
    if k < |seen| - 1 {
      SeenDoneMeans(seen[..|seen| - 1], id, k);
    }
  }

  lemma {:induction false} NeverSeenDone(seen: seq<Job>, id: string)
    requires forall k :: 0 <= k < |seen| && seen[k].id == id ==> seen[k].state.Reading?
    ensures !SeenDone(seen, id)
  {
    if |seen| == 0 {
    } else {
      NeverSeenDone(seen[..|seen| - 1], id);
    }
  }

  lemma {:induction false} FinishedId(seen: seq<Job>, id: string)
    ensures id in IdsOf(Finished(seen)) <==> SeenDone(seen, id)
  {
    if |seen| == 0 {
    } else {
      FinishedId(seen[..|seen| - 1], id);
      OneMore(Finished(seen[..|seen| - 1]), seen[|seen| - 1]);
    }
  }

  lemma AboutAppended(toasts: seq<Toast>, toast: Toast, id: string)
    ensures Filter(toasts + [toast], About(id)) == Filter(toasts, About(id)) + if toast.jobId == id then [toast] else []
  {
    FilterAppend(toasts, [toast], About(id));
    assert Filter([toast], About(id)) == if toast.jobId == id then [toast] else [];
  }

  /** The notices about one job, after everything seen. */
  function Notices(seen: seq<Job>, id: string): seq<Toast> {
    Filter(ToastsFor(Finished(seen)), About(id))
  }

  lemma OneMoreSeen(seen: seq<Job>, job: Job, id: string)
    ensures Notices(seen + [job], id) == Notices(seen, id) +
            if job.id == id && !job.state.Reading? && !SeenDone(seen, id) then [ToastFor(job)] else []
  {
    var finished := Finished(seen);
    assert (seen + [job])[..|seen|] == seen;
    FinishedId(seen, job.id);
    OneMore(finished, job);
    AboutAppended(ToastsFor(finished), ToastFor(job), id);
    assert Notices(seen, id) + [] == Notices(seen, id);
  }

  /**
   * Over any sequence of polls: an import seen outside reading has exactly one notice, the one its first such sighting
   * calls for, success just when it was imported then and failure otherwise, whatever later polls say of it.
   */
  lemma {:induction false} AnnouncedOnce(seen: seq<Job>, at: nat)
    requires FirstSighting(seen, at)
    ensures Notices(seen, seen[at].id) == [ToastFor(seen[at])]
    ensures ToastFor(seen[at]).success <==> seen[at].state.Imported?
  {
    var before, job, id := seen[..|seen| - 1], seen[|seen| - 1], seen[at].id;
    assert seen == before + [job];
    OneMoreSeen(before, job, id);
    if at < |before| {
      assert before[at] == seen[at] && forall k :: 0 <= k < at ==> before[k] == seen[k];
      AnnouncedOnce(before, at);
      SeenDoneMeans(before, id, at);
    } else {
      NotYetAnnounced(before, id);
      NeverSeenDone(before, id);
    }
  }

  /**
   * What a notice says: which report, whether it landed, where it went when that is not where it was sent, why it
   * failed, and the review it opens when there is an inspection to open.
   */
  lemma NoticeSaysWhatHappened(job: Job)
    ensures var toast := ToastFor(job);
            && toast.jobId == job.id && (toast.success <==> job.state.Imported?)
            && toast.title ==
               (if job.address.Some? && job.address.value != "" then
                  job.address.value + if job.state.Imported? then " imported" else " could not be imported"
                else if job.state.Imported? then "Report imported" else "Import failed")
            && (job.state.Imported? ==>
                  (toast.description == SavedElsewhere(job.inspectionType, job.scheduledAt) <==>
                   && job.requestedInspectionId.Some? && job.requestedInspectionId.value != ""
                   && job.inspectionId.Some? && job.inspectionId.value != ""
                   && job.requestedInspectionId.value != job.inspectionId.value)
                  && (toast.description.OnTheInspection? || toast.description.SavedElsewhere?))
            && (!job.state.Imported? ==>
                  toast.description ==
                  NotRead(if job.errorCode.Some? then job.errorCode.value else "The report could not be read."))
            && toast.link ==
               if job.inspectionId.Some? && job.inspectionId.value != "" then
                 Some("/inspections/" + job.inspectionId.value + "?import=" + job.id)
               else None
  {
  }

  /** ... and one never seen outside reading has none. */
  lemma {:induction false} NotYetAnnounced(seen: seq<Job>, id: string)
    requires forall k :: 0 <= k < |seen| && seen[k].id == id ==> seen[k].state.Reading?
    ensures Notices(seen, id) == []
  {
    if |seen| == 0 {
    } else {
      var before, job := seen[..|seen| - 1], seen[|seen| - 1];
      assert seen == before + [job];
      NotYetAnnounced(before, id);
      OneMoreSeen(before, job, id);
    }
  }
}
