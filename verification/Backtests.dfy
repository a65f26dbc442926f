/** Backtest jobs: the run and delete endpoints, the in-memory queue and the worker
    (`routers/backtest.py`, `backtest_worker.py`, `backtest_repo.py`). */
module Backtests {
  import opened Prelude

  type JobId = Uuid

  datatype Status = Queued | Running | Completed | Failed

  datatype Job = Job(
    user: Uuid, status: Status, result: Option<string>, error: Option<string>, completedAt: Option<int>)

  type Jobs = map<JobId, Job>

  function NewJob(user: Uuid): Job { Job(user, Queued, None, None, None) }

  function MarkCompleted(j: Job, result: Option<string>, now: int): Job {
    j.(status := Completed, result := result, completedAt := Some(now))
  }

  function MarkFailed(j: Job, message: string, now: int): Job {
    j.(status := Failed, error := Some(message), completedAt := Some(now))
  }

  /** How the work on a RUNNING job ended: the path or the configuration could not be built, the process
      timed out, an exception was caught around it (as for a failing process that prints JSON but no
      object), the process had a non-zero exit code, or exit code 0 and the given standard output. */
  datatype Outcome =
    | Unprepared
    | TimedOut
    | WorkerError(text: string)
    | Exit(code: int, message: string)
    | Output(stdout: Stdout)

  /** What was printed; `Unstorable` is JSON that the result column refuses, such as one with NaN in it. */
  datatype Stdout =
    | NotJson
    | JsonNull
    | JsonObject(text: string)
    | JsonOther(text: string)
    | Unstorable(text: string)

  /** No marking ends the job.  Building the path and the configuration is not covered by the handler that
      marks failures; a refused result leaves the session unusable, so that marking the failure raises too. */
  predicate Strands(o: Outcome) { o.Unprepared? || (o.Output? && o.stdout.Unstorable?) }

  /** The result is JSON but no object: reading a field of it raises after the job has been completed and
      committed, and the job is then marked failed. */
  predicate NeedsRemark(o: Outcome) { o.Output? && (o.stdout.JsonNull? || o.stdout.JsonOther?) }

  /** The first marking of the job. */
  function Ended(j: Job, o: Outcome, now: int): Job
    requires !Strands(o)
  {
    match o
    case TimedOut => MarkFailed(j, "timeout", now)
    case WorkerError(text) => MarkFailed(j, text, now)
    case Exit(_, message) => MarkFailed(j, message, now)
    case Output(NotJson) => MarkFailed(j, "invalid json", now)
    case Output(JsonNull) => MarkCompleted(j, None, now)
    case Output(JsonObject(text)) => MarkCompleted(j, Some(text), now)
    case Output(JsonOther(text)) => MarkCompleted(j, Some(text), now)
  }

  // ---------- the protocol ----------

  /** Idle, holding an id taken from the queue, waiting for the process of a RUNNING job, or about to mark
      a committed job failed because its result is no object. */
  datatype Worker = Idle | Holding(id: JobId) | Working(id: JobId) | Remarking(id: JobId)

  /** `unput` are ids whose row is committed and which are not yet in the queue.  `put` and `taken` record
      the ids put into and taken from the queue so far. */
  datatype State = State(
    jobs: Jobs, unput: set<JobId>, queue: seq<JobId>, worker: Worker, put: seq<JobId>, taken: seq<JobId>)

  const INITIAL := State(map[], {}, [], Idle, [], [])

  /** `loaded`, `saved`: the row was read and its new status committed.  They are false when a statement or
      the commit raises, because the database does not answer or refuses a value. */
  datatype Event =
    | Submit(user: Uuid, id: JobId)
    | Put(id: JobId)
    | Take
    | Load(loaded: bool)
    | Finish(outcome: Outcome, now: int, saved: bool)
    | Remark(now: int, saved: bool)
    | Delete(user: Uuid, id: JobId)
  {
    /** The step commits what it is there to commit. */
    predicate GoesThrough() {
      (Load? ==> loaded) && (Finish? ==> saved && !Strands(outcome)) && (Remark? ==> saved)
    }
  }

  /** What the delete endpoint answers. */
  datatype Reply = Done | NotFound | Forbidden | Conflict

  function DeleteReply(jobs: Jobs, user: Uuid, id: JobId): Reply {
    if id !in jobs then NotFound
    else if jobs[id].user != user then Forbidden
    else if jobs[id].status.Running? then Conflict
    else Done
  }

  function Step(s: State, e: Event): State {
    match e
    case Submit(user, id) =>
      if id in s.jobs then s
      else s.(jobs := s.jobs[id := NewJob(user)], unput := s.unput + {id})
    case Put(id) =>
      if id !in s.unput then s
      else s.(unput := s.unput - {id}, queue := s.queue + [id], put := s.put + [id])
    case Take =>
      if !s.worker.Idle? || s.queue == [] then s
      else s.(queue := s.queue[1..], worker := Holding(s.queue[0]), taken := s.taken + [s.queue[0]])
    case Load(_) =>
      if !s.worker.Holding? then s
      else if !e.GoesThrough() || s.worker.id !in s.jobs then s.(worker := Idle)
      else s.(jobs := s.jobs[s.worker.id := s.jobs[s.worker.id].(status := Running)], worker := Working(s.worker.id))
    case Finish(o, now, _) =>
      if !s.worker.Working? then s
      else if !e.GoesThrough() || s.worker.id !in s.jobs then s.(worker := Idle)
      else s.(jobs := s.jobs[s.worker.id := Ended(s.jobs[s.worker.id], o, now)],
              worker := if NeedsRemark(o) then Remarking(s.worker.id) else Idle)
    case Remark(now, _) =>
      if !s.worker.Remarking? then s
      else if !e.GoesThrough() || s.worker.id !in s.jobs then s.(worker := Idle)
      else s.(jobs := s.jobs[s.worker.id := MarkFailed(s.jobs[s.worker.id], "worker error", now)], worker := Idle)
    case Delete(user, id) =>
      if DeleteReply(s.jobs, user, id).Done? then s.(jobs := s.jobs - {id}) else s
  }

  function Run(events: seq<Event>): State {
    if events == [] then INITIAL
    else Step(Run(events[..|events| - 1]), events[|events| - 1])
  }

  // ---------- conditions on runs ----------

  /** The ids drawn for jobs are pairwise different. */
  ghost predicate FreshIds(events: seq<Event>) {
    forall i, j | 0 <= i < j < |events| && events[i].Submit? && events[j].Submit? :: events[i].id != events[j].id
  }

  ghost predicate AllGoThrough(events: seq<Event>) { forall e | e in events :: e.GoesThrough() }

  /** No result was JSON without being an object. */
  ghost predicate ResultsAreObjects(events: seq<Event>) {
    forall e | e in events :: e.Finish? ==> !NeedsRemark(e.outcome)
  }

  // ---------- the queue ----------

  ghost predicate Distinct(ids: seq<JobId>) { forall i, j | 0 <= i < j < |ids| :: ids[i] != ids[j] }

  /** First in, first out: the ids taken and the ids queued are together the ids put, in order, and no id
      is put twice or both put and waiting to be put. */
  ghost predicate QueueInv(s: State) {
    && s.put == s.taken + s.queue
    && Distinct(s.put)
    && (forall id | id in s.unput :: id !in s.put)
    && (!s.worker.Idle? ==> s.taken != [] && s.worker.id == s.taken[|s.taken| - 1])
  }

  ghost predicate Submitted(events: seq<Event>, id: JobId) {
    exists i :: 0 <= i < |events| && events[i].Submit? && events[i].id == id
  }

  /** Ids in the machinery were submitted. */
  ghost predicate KnownInv(s: State, events: seq<Event>) {
    forall id | id in s.jobs || id in s.unput || id in s.put :: Submitted(events, id)
  }

  lemma SubmittedGrows(events: seq<Event>, id: JobId)
    requires events != [] && Submitted(events[..|events| - 1], id)
    ensures Submitted(events, id)
  {
  }

  lemma StepKeepsKnown(s: State, events: seq<Event>, e: Event)
    requires KnownInv(s, events)
    ensures KnownInv(Step(s, e), events + [e])
  {
    var t, all := Step(s, e), events + [e];
    assert all[..|events|] == events && all[|events|] == e;
    forall id | id in t.jobs || id in t.unput || id in t.put ensures Submitted(all, id) {
      if id in s.jobs || id in s.unput || id in s.put {
        SubmittedGrows(all, id);
      } else {
        assert e.Submit? && e.id == id;
      }
    }
  }

  lemma StepKeepsQueue(s: State, e: Event)
    requires QueueInv(s) && (e.Submit? ==> e.id !in s.put)
    ensures QueueInv(Step(s, e))
  {
  }

  lemma FreshIdIsUnknown(events: seq<Event>, e: Event)
    requires FreshIds(events + [e]) && e.Submit?
    ensures !Submitted(events, e.id)
  {
    var all := events + [e];
    assert all[|events|] == e;
    forall i | 0 <= i < |events| ensures !(events[i].Submit? && events[i].id == e.id) {
      assert all[i] == events[i];
    }
  }

  lemma {:induction false} RunKeepsQueue(events: seq<Event>)
    requires FreshIds(events)
    ensures QueueInv(Run(events)) && KnownInv(Run(events), events)
  {
    if events != [] {
      var n := |events| - 1;
      var e := events[n];
      assert events == events[..n] + [e];
      RunKeepsQueue(events[..n]);
      if e.Submit? {
        FreshIdIsUnknown(events[..n], e);
      }
      StepKeepsKnown(Run(events[..n]), events[..n], e);
      StepKeepsQueue(Run(events[..n]), e);
    }
  }

  /** Every id is processed at most once, and ids are processed in the order they were put, whatever fails. */
  lemma ProcessedOnceInOrder(events: seq<Event>)
    requires FreshIds(events)
    ensures var s := Run(events); s.taken <= s.put && Distinct(s.taken)
  {
    RunKeepsQueue(events);
  }

  // ---------- where a job is ----------

  /** The step gives up a QUEUED job that the worker holds. */
  predicate LosesAt(s: State, e: Event) {
    e.Load? && !e.GoesThrough() && s.worker.Holding? && s.worker.id in s.jobs
  }

  /** The step gives up a RUNNING job. */
  predicate StrandsAt(s: State, e: Event) {
    e.Finish? && !e.GoesThrough() && s.worker.Working? && s.worker.id in s.jobs
  }

  /** The jobs whose loading failed in the run. */
  function Lost(events: seq<Event>): set<JobId> {
    if events == [] then {}
    else
      var n := |events| - 1;
      var s := Run(events[..n]);
      Lost(events[..n]) + if LosesAt(s, events[n]) then {s.worker.id} else {}
  }

  /** The jobs whose marking failed, or was never attempted, in the run. */
  function Stranded(events: seq<Event>): set<JobId> {
    if events == [] then {}
    else
      var n := |events| - 1;
      var s := Run(events[..n]);
      Stranded(events[..n]) + if StrandsAt(s, events[n]) then {s.worker.id} else {}
  }

  /** A job is QUEUED exactly while it waits to be put, is in the queue, is held by the worker or has been
      lost, and RUNNING exactly while the worker is on it or it has been stranded. */
  ghost predicate PlacedInv(s: State, lost: set<JobId>, stranded: set<JobId>) {
    && (forall id | id in s.jobs ::
          && (s.jobs[id].status.Queued? <==>
                id in s.unput || id in s.queue || s.worker == Holding(id) || id in lost)
          && (s.jobs[id].status.Running? <==> s.worker == Working(id) || id in stranded)
          && (s.worker == Remarking(id) ==> s.jobs[id].status.Completed?))
    && (forall id | id in lost || id in stranded :: id in s.taken && (s.worker.Idle? || s.worker.id != id))
    && (s.worker.Working? ==> s.worker.id in s.jobs)
    && stranded <= s.jobs.Keys
  }

  lemma HeldIsNoLongerQueued(s: State)
    requires QueueInv(s) && !s.worker.Idle?
    ensures s.worker.id !in s.queue && s.worker.id !in s.unput
  {
    var k := |s.taken| - 1;
    assert s.put[k] == s.worker.id;
    forall i | 0 <= i < |s.queue| ensures s.queue[i] != s.worker.id {
      assert s.put[|s.taken| + i] == s.queue[i];
    }
    assert s.worker.id in s.put;
  }

  lemma TakenIsNoLongerQueued(s: State, id: JobId)
    requires QueueInv(s) && id in s.taken
    ensures id !in s.queue && id !in s.unput && id in s.put
  {
    var k :| 0 <= k < |s.taken| && s.taken[k] == id;
    assert s.put[k] == id;
    forall i | 0 <= i < |s.queue| ensures s.queue[i] != id {
      assert s.put[|s.taken| + i] == s.queue[i];
    }
  }

  lemma TakeKeepsPlaces(s: State, lost: set<JobId>, stranded: set<JobId>)
    requires QueueInv(s) && PlacedInv(s, lost, stranded)
    ensures PlacedInv(Step(s, Take), lost, stranded)
  {
    if Step(s, Take) != s {
      assert s.put[|s.taken|] == s.queue[0];
      forall id | id in s.taken ensures id != s.queue[0] {
        TakenIsNoLongerQueued(s, id);
      }
      assert s.queue == [s.queue[0]] + s.queue[1..];
      forall k | 1 <= k < |s.queue| ensures s.queue[k] != s.queue[0] {
        assert s.put[|s.taken| + k] == s.queue[k];
      }
      assert s.queue[0] in s.put;
    }
  }

  /** The worker's own steps, whether they go through or not. */
  lemma WorkKeepsPlaces(s: State, e: Event, lost: set<JobId>, stranded: set<JobId>)
    requires QueueInv(s) && PlacedInv(s, lost, stranded) && (e.Load? || e.Finish? || e.Remark?)
    ensures PlacedInv(Step(s, e),
                      lost + if LosesAt(s, e) then {s.worker.id} else {},
                      stranded + if StrandsAt(s, e) then {s.worker.id} else {})
  {
    if Step(s, e) != s {
      HeldIsNoLongerQueued(s);
    }
  }

  lemma OutsideKeepsPlaces(s: State, e: Event, lost: set<JobId>, stranded: set<JobId>)
    requires QueueInv(s) && PlacedInv(s, lost, stranded) && (e.Submit? || e.Put? || e.Delete?)
    requires e.Submit? ==> e.id in s.jobs || (e.id !in s.unput && e.id !in s.put)
    ensures PlacedInv(Step(s, e), lost, stranded)
  {
    assert forall k | k in s.taken || k in s.queue :: k in s.put;
  }

  /** In every run, whatever fails, each job is where its status says. */
  lemma {:induction false} RunKeepsPlaces(events: seq<Event>)
    requires FreshIds(events)
    ensures PlacedInv(Run(events), Lost(events), Stranded(events))
  {
    if events != [] {
      var init, e := events[..|events| - 1], events[|events| - 1];
      var s := Run(init);
      assert events == init + [e];
      RunKeepsPlaces(init);
      RunKeepsQueue(init);
      match e
      case Take => TakeKeepsPlaces(s, Lost(init), Stranded(init));
      case Load(_) => WorkKeepsPlaces(s, e, Lost(init), Stranded(init));
      case Finish(_, _, _) => WorkKeepsPlaces(s, e, Lost(init), Stranded(init));
      case Remark(_, _) => WorkKeepsPlaces(s, e, Lost(init), Stranded(init));
      case _ =>
        if e.Submit? {
          FreshIdIsUnknown(init, e);
        }
        OutsideKeepsPlaces(s, e, Lost(init), Stranded(init));
    }
  }

  lemma FreshIdsPrefix(events: seq<Event>, more: seq<Event>)
    requires FreshIds(events + more)
    ensures FreshIds(events)
  {
    var all := events + more;
    forall i, j | 0 <= i < j < |events| && events[i].Submit? && events[j].Submit? ensures events[i].id != events[j].id {
      assert all[i] == events[i] && all[j] == events[j];
    }
  }

  // ---------- status and fields ----------

  function Order(s: Status): nat {
    match s
    case Queued => 0
    case Running => 1
    case Completed => 2
    case Failed => 2
  }

  predicate Terminal(s: Status) { s.Completed? || s.Failed? }

  /** The fields that may be set in each status. */
  predicate WellFormed(j: Job) {
    && (j.result.Some? <==> j.status.Completed?)
    && (j.error.Some? <==> j.status.Failed?)
    && (j.completedAt.Some? <==> Terminal(j.status))
  }

  /** The first marking of the worker's job goes through in this step, after a result of the given kind. */
  predicate MarksAfter(s: State, e: Event, isNull: bool) {
    e.Finish? && e.GoesThrough() && s.worker.Working? && s.worker.id in s.jobs && NeedsRemark(e.outcome) &&
    e.outcome.stdout.JsonNull? == isNull
  }

  /** The jobs whose result was null (`isNull`), or was JSON other than an object or null. */
  function Misread(events: seq<Event>, isNull: bool): set<JobId> {
    if events == [] then {}
    else
      var n := |events| - 1;
      var s := Run(events[..n]);
      Misread(events[..n], isNull) + if MarksAfter(s, events[n], isNull) then {s.worker.id} else {}
  }

  /** The fields of a job in order, or those left by a result that is no object: once completed, the job keeps
      a result that is not null beside the error of the re-marking, and a null result is stored as none. */
  predicate FieldsAre(j: Job, other: bool, isNull: bool) {
    if !other && !isNull then WellFormed(j)
    else
      && Terminal(j.status) && j.completedAt.Some?
      && (j.error.Some? <==> j.status.Failed?)
      && (j.result.Some? <==> other)
  }

  ghost predicate FieldsInv(s: State, other: set<JobId>, isNull: set<JobId>) {
    && other !! isNull
    && (forall id | id in s.jobs :: FieldsAre(s.jobs[id], id in other, id in isNull))
    && (forall id | id in other || id in isNull ::
          id in s.taken && (s.worker.Idle? || s.worker.id != id || s.worker.Remarking?))
    && (s.worker.Remarking? ==> s.worker.id in other || s.worker.id in isNull)
  }

  lemma FinishKeepsFields(s: State, e: Event, other: set<JobId>, isNull: set<JobId>)
    requires FieldsInv(s, other, isNull) && e.Finish?
    requires s.worker.Working? && s.worker.id in s.jobs ==> s.jobs[s.worker.id].status.Running?
    requires s.worker.Working? ==> s.worker.id in s.taken
    ensures FieldsInv(Step(s, e), other + if MarksAfter(s, e, false) then {s.worker.id} else {},
                      isNull + if MarksAfter(s, e, true) then {s.worker.id} else {})
  {
  }

  lemma OtherStepsKeepFields(s: State, e: Event, other: set<JobId>, isNull: set<JobId>)
    requires FieldsInv(s, other, isNull) && !e.Finish?
    requires e.Submit? && e.id !in s.jobs ==> e.id !in s.taken
    requires e.Take? && s.queue != [] ==> s.queue[0] !in s.taken
    requires s.worker.Holding? && s.worker.id in s.jobs ==> s.jobs[s.worker.id].status.Queued?
    ensures FieldsInv(Step(s, e), other, isNull)
  {
  }

  lemma {:induction false} RunKeepsFields(events: seq<Event>)
    requires FreshIds(events)
    ensures FieldsInv(Run(events), Misread(events, false), Misread(events, true))
  {
    if events != [] {
      var init, e := events[..|events| - 1], events[|events| - 1];
      var s := Run(init);
      assert events == init + [e];
      FreshIdsPrefix(init, [e]);
      RunKeepsFields(init);
      RunKeepsPlaces(init);
      RunKeepsQueue(init);
      if e.Finish? {
        FinishKeepsFields(s, e, Misread(init, false), Misread(init, true));
      } else {
        if e.Submit? {
          FreshIdIsUnknown(init, e);
          assert forall id | id in s.taken :: id in s.put;
        }
        if e.Take? && s.queue != [] && s.queue[0] in s.taken {
          TakenIsNoLongerQueued(s, s.queue[0]);
        }
        OtherStepsKeepFields(s, e, Misread(init, false), Misread(init, true));
      }
    }
  }

  /** In every run, whatever fails and whatever other jobs print, result, error and completion time of a job
      fit its status except in two cases: it has failed after a result that is JSON other than an object or
      null, or it is completed with a null result. */
  lemma FieldsFitIff(events: seq<Event>, id: JobId)
    requires FreshIds(events) && id in Run(events).jobs
    ensures var j := Run(events).jobs[id];
      WellFormed(j) <==>
        !(id in Misread(events, false) && j.status.Failed?) && !(id in Misread(events, true) && j.status.Completed?)
  {
    RunKeepsFields(events);
  }

  lemma {:induction false} ObjectsAreNotMisread(events: seq<Event>, isNull: bool)
    requires ResultsAreObjects(events)
    ensures Misread(events, isNull) == {}
  {
    if events != [] {
      assert events[|events| - 1] in events && forall x | x in events[..|events| - 1] :: x in events;
      ObjectsAreNotMisread(events[..|events| - 1], isNull);
    }
  }

  /** In every run, whatever fails, a step leaves a job as it is, or moves it QUEUED to RUNNING, or RUNNING
      to a terminal status, or marks the job failed that the worker has just completed with a result that
      is no object. */
  lemma StatusMovesForward(events: seq<Event>, e: Event, id: JobId)
    requires FreshIds(events + [e])
    ensures var s, t := Run(events), Run(events + [e]);
      id in s.jobs && id in t.jobs ==>
        || t.jobs[id] == s.jobs[id]
        || Order(t.jobs[id].status) == Order(s.jobs[id].status) + 1
        || (e.Remark? && s.worker == Remarking(id) && s.jobs[id].status.Completed? && t.jobs[id].status.Failed?)
    ensures ResultsAreObjects(events) ==> !Run(events).worker.Remarking?
  {
    assert (events + [e])[..|events|] == events;
    FreshIdsPrefix(events, [e]);
    RunKeepsPlaces(events);
    if ResultsAreObjects(events) {
      RunKeepsFields(events);
      ObjectsAreNotMisread(events, false);
      ObjectsAreNotMisread(events, true);
    }
  }

  // ---------- the verdict on a job ----------

  /** The worker's job is marked for the first time in this step. */
  predicate MarkedAt(s: State, e: Event) {
    e.Finish? && e.GoesThrough() && s.worker.Working? && s.worker.id in s.jobs
  }

  /** The worker's job is marked again in this step. */
  predicate RemarkedAt(s: State, e: Event) {
    e.Remark? && e.GoesThrough() && s.worker.Remarking? && s.worker.id in s.jobs
  }

  /** The last step that marked the job for the first time. */
  function MarkOf(events: seq<Event>, id: JobId): Option<Event> {
    if events == [] then None
    else
      var n := |events| - 1;
      var s := Run(events[..n]);
      if MarkedAt(s, events[n]) && s.worker.id == id then Some(events[n]) else MarkOf(events[..n], id)
  }

  /** The last step that marked the job again. */
  function RemarkOf(events: seq<Event>, id: JobId): Option<Event> {
    if events == [] then None
    else
      var n := |events| - 1;
      var s := Run(events[..n]);
      if RemarkedAt(s, events[n]) && s.worker.id == id then Some(events[n]) else RemarkOf(events[..n], id)
  }

  /** The user who submitted the job. */
  function SubmitterOf(events: seq<Event>, id: JobId): Option<Uuid> {
    if events == [] then None
    else
      var e := events[|events| - 1];
      if e.Submit? && e.id == id then Some(e.user) else SubmitterOf(events[..|events| - 1], id)
  }

  /** The text of the error that an outcome leads to, if it leads to one. */
  function ErrorOf(o: Outcome): Option<string> {
    match o
    case TimedOut => Some("timeout")
    case WorkerError(text) => Some(text)
    case Exit(_, message) => Some(message)
    case Output(NotJson) => Some("invalid json")
    case _ => None
  }

  /** The result that an outcome leaves: what was printed, if it is JSON other than null. */
  function ResultOf(o: Outcome): Option<string> {
    match o
    case Output(JsonObject(text)) => Some(text)
    case Output(JsonOther(text)) => Some(text)
    case _ => None
  }

  /** The row of a job that was marked with the outcome at the given time and, if `again` is a time, marked
      failed then: COMPLETED iff the process printed JSON and nothing was marked after that. */
  predicate Verdict(j: Job, o: Outcome, at: int, again: Option<int>) {
    && j.result == ResultOf(o)
    && if again.Some? then j.status == Failed && j.error == Some("worker error") && j.completedAt == again
       else
         && j.completedAt == Some(at)
         && j.error == ErrorOf(o)
         && j.status == if ErrorOf(o).Some? then Failed else Completed
  }

  /** What the row of a job says, as a function of the steps that marked it. */
  ghost predicate SaysVerdict(j: Job, mark: Option<Event>, again: Option<Event>) {
    && (mark.Some? ==> mark.value.Finish?) && (again.Some? ==> again.value.Remark?)
    && if mark.None? then
         again.None? && !Terminal(j.status) && j.result == None && j.error == None && j.completedAt == None
       else
         Verdict(j, mark.value.outcome, mark.value.now, if again.Some? then Some(again.value.now) else None)
  }

  /** Marked ids have been taken, and are not worked on any more; one being re-marked was not re-marked yet. */
  ghost predicate VerdictInv(s: State, id: JobId, submitter: Option<Uuid>, mark: Option<Event>, again: Option<Event>) {
    && (id in s.jobs ==> SaysVerdict(s.jobs[id], mark, again) && submitter == Some(s.jobs[id].user))
    && (mark.Some? || again.Some? ==> id in s.taken && (s.worker.Idle? || s.worker.id != id || s.worker.Remarking?))
    && (s.worker == Remarking(id) ==> mark.Some? && again.None?)
  }

  lemma StepKeepsVerdict(
      s: State, e: Event, id: JobId, submitter: Option<Uuid>, mark: Option<Event>, again: Option<Event>)
    requires VerdictInv(s, id, submitter, mark, again)
    requires e.Submit? && e.id == id ==> id !in s.taken && id !in s.jobs
    requires e.Take? && s.queue != [] ==> s.queue[0] !in s.taken
    requires s.worker.Holding? && s.worker.id in s.jobs ==> s.jobs[s.worker.id].status.Queued?
    requires s.worker.Working? && s.worker.id in s.jobs ==> s.jobs[s.worker.id].status.Running?
    requires !s.worker.Idle? ==> s.worker.id in s.taken
    ensures VerdictInv(Step(s, e), id,
                       if e.Submit? && e.id == id then Some(e.user) else submitter,
                       if MarkedAt(s, e) && s.worker.id == id then Some(e) else mark,
                       if RemarkedAt(s, e) && s.worker.id == id then Some(e) else again)
  {
  }

  /** In every run, whatever fails: the row of a job is its submitter's, and carries exactly the verdict of the
      step that marked it, or of the one that marked it again; without either it has none. */
  lemma {:induction false} RowsSayVerdicts(events: seq<Event>, id: JobId)
    requires FreshIds(events)
    ensures VerdictInv(Run(events), id, SubmitterOf(events, id), MarkOf(events, id), RemarkOf(events, id))
  {
    if events != [] {
      var init, e := events[..|events| - 1], events[|events| - 1];
      var s := Run(init);
      assert events == init + [e];
      FreshIdsPrefix(init, [e]);
      RowsSayVerdicts(init, id);
      RunKeepsPlaces(init);
      RunKeepsQueue(init);
      if e.Submit? {
        FreshIdIsUnknown(init, e);
        assert forall k | k in s.taken :: k in s.put;
      }
      if e.Take? && s.queue != [] && s.queue[0] in s.taken {
        TakenIsNoLongerQueued(s, s.queue[0]);
      }
      StepKeepsVerdict(s, e, id, SubmitterOf(init, id), MarkOf(init, id), RemarkOf(init, id));
    }
  }

  lemma {:induction false} MarksGoThrough(events: seq<Event>, id: JobId)
    requires MarkOf(events, id).Some?
    ensures MarkOf(events, id).value.Finish? && MarkOf(events, id).value.GoesThrough()
  {
    if events != [] {
      var n := |events| - 1;
      var s := Run(events[..n]);
      if !(MarkedAt(s, events[n]) && s.worker.id == id) {
        MarksGoThrough(events[..n], id);
      }
    }
  }

  /** The verdict spelled out: a job is COMPLETED with a result exactly if the process printed that JSON and
      nothing was marked after, and FAILED exactly if the marking outcome is an error, or it was re-marked. */
  lemma VerdictIff(events: seq<Event>, id: JobId, text: string)
    requires FreshIds(events) && id in Run(events).jobs
    ensures var j := Run(events).jobs[id]; var mark, again := MarkOf(events, id), RemarkOf(events, id);
      && (j.status.Completed? && j.result == Some(text) <==>
            again.None? && mark.Some? && mark.value.Finish? &&
            (mark.value.outcome == Output(JsonObject(text)) || mark.value.outcome == Output(JsonOther(text))))
      && (j.status.Failed? <==>
            again.Some? ||
            (mark.Some? && mark.value.Finish? &&
             (var o := mark.value.outcome; o.TimedOut? || o.WorkerError? || o.Exit? || o == Output(NotJson))))
      && (j.completedAt.Some? <==> mark.Some?)
  {
    RowsSayVerdicts(events, id);
    if MarkOf(events, id).Some? {
      MarksGoThrough(events, id);
    }
  }

  // ---------- which jobs there are ----------

  /** A job disappears in a step exactly if its submitter deletes it while it is not RUNNING. */
  lemma JobDisappearsIff(events: seq<Event>, e: Event, id: JobId)
    requires FreshIds(events + [e]) && id in Run(events).jobs
    ensures id !in Run(events + [e]).jobs <==>
            e.Delete? && e.id == id && SubmitterOf(events, id) == Some(e.user) && !Run(events).jobs[id].status.Running?
  {
    assert (events + [e])[..|events|] == events;
    FreshIdsPrefix(events, [e]);
    RowsSayVerdicts(events, id);
  }

  /** A job appears in a step exactly if it is submitted: QUEUED, the submitter's, and waiting to be put. */
  lemma JobAppearsIff(events: seq<Event>, e: Event, id: JobId)
    requires FreshIds(events + [e]) && id !in Run(events).jobs
    ensures id in Run(events + [e]).jobs <==> e.Submit? && e.id == id
    ensures e.Submit? && e.id == id ==>
              var t := Run(events + [e]);
              id in t.unput && t.jobs[id] == Job(e.user, Queued, None, None, None)
  {
    assert (events + [e])[..|events|] == events;
  }

  // ---------- jobs that are never finished ----------

  predicate Quiet(s: State) { s.unput == {} && s.queue == [] && s.worker.Idle? }

  /** When nothing is left to do, a surviving job is QUEUED iff its loading failed, RUNNING iff its marking
      failed or was never attempted, and terminal iff neither happened. */
  lemma QuietStatus(events: seq<Event>, id: JobId)
    requires FreshIds(events) && Quiet(Run(events)) && id in Run(events).jobs
    ensures var status := Run(events).jobs[id].status;
      && (status.Queued? <==> id in Lost(events))
      && (status.Running? <==> id in Stranded(events))
      && (Terminal(status) <==> id !in Lost(events) && id !in Stranded(events))
  {
    RunKeepsPlaces(events);
  }

  /** A job is never lost or stranded in a run whose steps all go through. */
  lemma {:induction false} NothingIsGivenUp(events: seq<Event>)
    requires AllGoThrough(events)
    ensures Lost(events) == {} && Stranded(events) == {}
  {
    if events != [] {
      assert events[|events| - 1] in events && forall x | x in events[..|events| - 1] :: x in events;
      NothingIsGivenUp(events[..|events| - 1]);
    }
  }

  lemma {:induction false} StrandedGrows(events: seq<Event>, more: seq<Event>)
    ensures Stranded(events) <= Stranded(events + more)
    decreases |more|
  {
    if more == [] {
      assert events + more == events;
    } else {
      var init := more[..|more| - 1];
      assert (events + more)[..|events| + |init|] == events + init;
      StrandedGrows(events, init);
    }
  }

  /** A stranded job stays RUNNING for ever, and nobody can delete it. */
  lemma StrandedForEver(events: seq<Event>, more: seq<Event>, id: JobId, user: Uuid)
    requires FreshIds(events + more) && id in Stranded(events)
    ensures var jobs := Run(events + more).jobs;
      && id in jobs && jobs[id].status.Running?
      && DeleteReply(jobs, user, id) == if user == jobs[id].user then Conflict else Forbidden
  {
    StrandedGrows(events, more);
    RunKeepsPlaces(events + more);
  }

  lemma GivenUpExtends(events: seq<Event>, e: Event)
    ensures var s := Run(events);
      && Run(events + [e]) == Step(s, e)
      && Lost(events + [e]) == Lost(events) + (if LosesAt(s, e) then {s.worker.id} else {})
      && Stranded(events + [e]) == Stranded(events) + (if StrandsAt(s, e) then {s.worker.id} else {})
  {
    assert (events + [e])[..|events|] == events;
  }

  const EXAMPLE := [Submit(7, 1), Put(1), Take]

  lemma ExampleHolds()
    ensures Run(EXAMPLE) == State(map[1 := NewJob(7)], {}, [], Holding(1), [1], [1])
    ensures Lost(EXAMPLE) == {} && Stranded(EXAMPLE) == {}
  {
    var none: seq<Event> := [];
    var submitted := none + [Submit(7, 1)];
    var put := submitted + [Put(1)];
    GivenUpExtends(none, Submit(7, 1));
    GivenUpExtends(submitted, Put(1));
    GivenUpExtends(put, Take);
    assert EXAMPLE == put + [Take];
  }

  lemma GivenUpAfter(events: seq<Event>, o: Outcome)
    requires Run(events) == State(map[1 := NewJob(7)], {}, [], Holding(1), [1], [1])
    requires Lost(events) == {} && Stranded(events) == {} && Strands(o)
    ensures Lost(events + [Load(false)]) == {1}
    ensures Stranded(events + [Load(true)] + [Finish(o, 0, true)]) == {1}
  {
    GivenUpExtends(events, Load(false));
    GivenUpExtends(events, Load(true));
    GivenUpExtends(events + [Load(true)], Finish(o, 0, true));
  }

  /** Jobs are given up in reachable states: by a failed load, and by every stranding outcome, although each
      statement that is attempted succeeds. */
  lemma JobsAreGivenUp(o: Outcome)
    requires Strands(o)
    ensures Lost(EXAMPLE + [Load(false)]) == {1}
    ensures Stranded(EXAMPLE + [Load(true)] + [Finish(o, 0, true)]) == {1}
  {
    ExampleHolds();
    GivenUpAfter(EXAMPLE, o);
  }

  lemma MisfiledAfter(events: seq<Event>, o: Outcome, remarked: bool)
    requires Run(events) == State(map[1 := NewJob(7)], {}, [], Holding(1), [1], [1]) && NeedsRemark(o)
    ensures var s := Run(events + [Load(true)] + [Finish(o, 0, true)] + [Remark(0, remarked)]);
      && 1 in s.jobs
      && (s.jobs[1].status == if remarked then Failed else Completed)
      && s.jobs[1].result == if o.stdout.JsonOther? then Some(o.stdout.text) else None
  {
    var loaded := events + [Load(true)];
    var finished := loaded + [Finish(o, 0, true)];
    GivenUpExtends(events, Load(true));
    GivenUpExtends(loaded, Finish(o, 0, true));
    GivenUpExtends(finished, Remark(0, remarked));
  }

  /** Both exceptions of `FieldsFitIff` occur: a failed job with a result, and, if marking it failed does not
      go through, a completed job without one. */
  lemma JobsAreMisfiled(text: string)
    ensures var s := Run(EXAMPLE + [Load(true)] + [Finish(Output(JsonOther(text)), 0, true)] + [Remark(0, true)]);
      1 in s.jobs && s.jobs[1].status.Failed? && s.jobs[1].result == Some(text)
    ensures var s := Run(EXAMPLE + [Load(true)] + [Finish(Output(JsonNull), 0, true)] + [Remark(0, false)]);
      1 in s.jobs && s.jobs[1].status.Completed? && s.jobs[1].result == None
  {
    ExampleHolds();
    MisfiledAfter(EXAMPLE, Output(JsonOther(text)), true);
    MisfiledAfter(EXAMPLE, Output(JsonNull), false);
  }

  // ---------- draining ----------

  /** A move of the machinery itself: no new job, no delete request. */
  predicate Moves(e: Event) { e.Put? || e.Take? || e.Load? || e.Finish? || e.Remark? }

  /** How many moves can still have an effect. */
  function Debt(s: State): nat {
    5 * |s.unput| + 4 * |s.queue|
    + match s.worker
      case Idle => 0
      case Holding(_) => 3
      case Working(_) => 2
      case Remarking(_) => 1
  }

  /** Every effective move pays, in every state and whether it goes through or not. */
  lemma MovesPayDebt(s: State, e: Event)
    requires Moves(e) && Step(s, e) != s
    ensures Debt(Step(s, e)) < Debt(s)
  {
    if e.Put? {
      assert |s.unput - {e.id}| == |s.unput| - 1;
    }
  }

  lemma SomeMoveIsEffective(s: State) returns (e: Event)
    requires !Quiet(s)
    ensures Moves(e) && e.GoesThrough() && Step(s, e) != s
  {
    if s.unput != {} {
      var id :| id in s.unput;
      e := Put(id);
      assert id !in Step(s, e).unput;
    } else if s.worker.Holding? {
      e := Load(true);
    } else if s.worker.Working? {
      e := Finish(TimedOut, 0, true);
    } else if s.worker.Remarking? {
      e := Remark(0, true);
    } else {
      e := Take;
      assert Step(s, e).worker.Holding?;
    }
  }

  /** The moves continue the run, and each has an effect. */
  ghost predicate Effective(events: seq<Event>, moves: seq<Event>)
    decreases |moves|
  {
    moves != [] ==>
      var init, e := moves[..|moves| - 1], moves[|moves| - 1];
      Effective(events, init) && Moves(e) && Step(Run(events + init), e) != Run(events + init)
  }

  ghost predicate CanMove(s: State) { exists e :: Moves(e) && Step(s, e) != s }

  lemma LastMove(events: seq<Event>, moves: seq<Event>)
    requires Effective(events, moves) && moves != []
    ensures var init, e := moves[..|moves| - 1], moves[|moves| - 1];
      && Effective(events, init) && Moves(e)
      && Run(events + moves) == Step(Run(events + init), e) != Run(events + init)
  {
    var init, e := moves[..|moves| - 1], moves[|moves| - 1];
    assert events + moves == (events + init) + [e];
    GivenUpExtends(events + init, e);
  }

  lemma {:induction false} MovesAreBounded(events: seq<Event>, moves: seq<Event>)
    requires Effective(events, moves)
    ensures |moves| + Debt(Run(events + moves)) <= Debt(Run(events))
    decreases |moves|
  {
    if moves == [] {
      assert events + moves == events;
    } else {
      var init := moves[..|moves| - 1];
      LastMove(events, moves);
      MovesAreBounded(events, init);
      MovesPayDebt(Run(events + init), moves[|moves| - 1]);
    }
  }

  lemma {:induction false} MovesSubmitNothing(events: seq<Event>, moves: seq<Event>)
    requires Effective(events, moves)
    ensures forall k | 0 <= k < |moves| :: !moves[k].Submit?
    decreases |moves|
  {
    if moves != [] {
      MovesSubmitNothing(events, moves[..|moves| - 1]);
    }
  }

  lemma FreshIdsWithMoves(events: seq<Event>, moves: seq<Event>)
    requires FreshIds(events) && forall k | 0 <= k < |moves| :: !moves[k].Submit?
    ensures FreshIds(events + moves)
  {
    var all := events + moves;
    assert forall k | 0 <= k < |moves| :: all[|events| + k] == moves[k];
    assert forall i | 0 <= i < |all| && all[i].Submit? :: i < |events| && all[i] == events[i];
  }

  /** Draining.  After any run, however much fails, the machinery makes at most `Debt` effective moves
      before it cannot move any more; then it is quiet, and the surviving jobs are terminal except those
      lost or stranded, of which there are none if every step went through. */
  lemma DrainingEndsTerminal(events: seq<Event>, moves: seq<Event>)
    requires FreshIds(events) && Effective(events, moves)
    ensures |moves| <= Debt(Run(events))
    ensures var all := events + moves; var t := Run(all);
      !CanMove(t) ==>
        && Quiet(t)
        && (forall id | id in t.jobs ::
              Terminal(t.jobs[id].status) <==> id !in Lost(all) && id !in Stranded(all))
        && (AllGoThrough(all) ==> forall id | id in t.jobs :: Terminal(t.jobs[id].status))
  {
    var all := events + moves;
    MovesAreBounded(events, moves);
    if !CanMove(Run(all)) {
      if !Quiet(Run(all)) {
        var e := SomeMoveIsEffective(Run(all));
      }
      MovesSubmitNothing(events, moves);
      FreshIdsWithMoves(events, moves);
      forall id | id in Run(all).jobs
        ensures Terminal(Run(all).jobs[id].status) <==> id !in Lost(all) && id !in Stranded(all)
      {
        QuietStatus(all, id);
      }
      if AllGoThrough(all) {
        NothingIsGivenUp(all);
      }
    }
  }

  // ---------- one job ----------

  /** How the worker fares with one job: whether loading it goes through, how the work ends, and whether the
      first and the second marking go through. */
  datatype Attempt = Attempt(loaded: bool, outcome: Outcome, saved: bool, remarked: bool)

  /** Given up when it was loaded: QUEUED as before.  Given up later: RUNNING.  Otherwise terminal. */
  predicate EndsAs(before: Job, after: Job, a: Attempt) {
    if !a.loaded then after == before
    else if !a.saved || Strands(a.outcome) then after.status.Running?
    else Terminal(after.status)
  }

  /** The jobs after one job has been processed. */
  function Processed(jobs: Jobs, id: JobId, a: Attempt, now: int): (r: Jobs)
    ensures r.Keys == jobs.Keys
    ensures id in jobs ==> EndsAs(jobs[id], r[id], a)
  {
    if id !in jobs || !a.loaded then jobs
    else
      var running := jobs[id].(status := Running);
      if !a.saved || Strands(a.outcome) then jobs[id := running]
      else
        var ended := Ended(running, a.outcome, now);
        jobs[id := if NeedsRemark(a.outcome) && a.remarked then MarkFailed(ended, "worker error", now) else ended]
  }

  /** Processing one job is the worker's steps of the protocol, with nothing in between. */
  lemma ProcessingIsTheWorkersSteps(s: State, a: Attempt, now: int)
    requires s.worker.Holding?
    ensures var loaded := Step(s, Load(a.loaded));
            var ended := Step(loaded, Finish(a.outcome, now, a.saved));
            var t := Step(ended, Remark(now, a.remarked));
            t.jobs == Processed(s.jobs, s.worker.id, a, now) && t.worker.Idle? && t.queue == s.queue
  {
  }

  // ---------- the service and worker objects ----------

  class BacktestService {
    var jobs: Jobs
    var queue: seq<JobId>

    constructor ()
      ensures jobs == map[] && queue == []
    {
      jobs, queue := map[], [];
    }

    /** POST /run: the row is committed, then the id is enqueued. */
    method RunBacktest(user: Uuid, id: JobId, dateFrom: int, dateTo: int) returns (accepted: bool)
      requires id !in jobs
      modifies this
      ensures accepted == (dateFrom < dateTo)
      ensures !accepted ==> jobs == old(jobs) && queue == old(queue)
      ensures accepted ==> jobs == old(jobs)[id := NewJob(user)] && queue == old(queue) + [id]
    {
      if dateTo <= dateFrom {
        return false;
      }
      jobs := jobs[id := Job(user, Queued, None, None, None)];
      queue := queue + [id];
      accepted := true;
    }

    method DeleteBacktest(user: Uuid, id: JobId) returns (reply: Reply)
      modifies this`jobs
      ensures reply == DeleteReply(old(jobs), user, id)
      ensures jobs == if reply.Done? then old(jobs) - {id} else old(jobs)
    {
      if id !in jobs {
        return NotFound;
      }
      if jobs[id].user != user {
        return Forbidden;
      }
      if jobs[id].status == Running {
        return Conflict;
      }
      jobs := jobs - {id};
      reply := Done;
    }

    /** One job from load to its end, with nothing interleaved. */
    method ProcessJob(id: JobId, a: Attempt, now: int)
      modifies this`jobs
      ensures jobs == Processed(old(jobs), id, a, now)
      ensures jobs - {id} == old(jobs) - {id}
      ensures id in old(jobs) && old(jobs)[id] == Job(old(jobs)[id].user, Queued, None, None, None) ==>
        && id in jobs && jobs[id].user == old(jobs)[id].user
        && (a.loaded && a.saved && !Strands(a.outcome) ==>
              Verdict(jobs[id], a.outcome, now, if NeedsRemark(a.outcome) && a.remarked then Some(now) else None))
    {
      if id !in jobs || !a.loaded {
        return;
      }
      jobs := jobs[id := jobs[id].(status := Running)];
      if a.outcome.Unprepared? || !a.saved {
        return;
      }
      var job := jobs[id];
      match a.outcome {
        case TimedOut =>
          jobs := jobs[id := MarkFailed(job, "timeout", now)];
        case WorkerError(text) =>
          jobs := jobs[id := MarkFailed(job, text, now)];
        case Exit(_, message) =>
          jobs := jobs[id := MarkFailed(job, message, now)];
        case Output(NotJson) =>
          jobs := jobs[id := MarkFailed(job, "invalid json", now)];
        case Output(Unstorable(_)) =>
          return;
        case Output(JsonObject(text)) =>
          jobs := jobs[id := MarkCompleted(job, Some(text), now)];
        case Output(JsonOther(text)) =>
          jobs := jobs[id := MarkCompleted(job, Some(text), now)];
          if a.remarked {
            jobs := jobs[id := MarkFailed(jobs[id], "worker error", now)];
          }
        case Output(JsonNull) =>
          jobs := jobs[id := MarkCompleted(job, None, now)];
          if a.remarked {
            jobs := jobs[id := MarkFailed(jobs[id], "worker error", now)];
          }
      }
    }

    /** The worker loop until the queue is empty; `attempts` says how the worker fares with each job.  Every
        queued job that still exists ends as its attempt says, and no other job is touched. */
    method Drain(attempts: map<JobId, Attempt>, now: int)
      requires forall id | id in queue :: id in attempts
      modifies this
      ensures queue == []
      ensures jobs.Keys == old(jobs).Keys
      ensures forall id | id in jobs && id !in old(queue) :: jobs[id] == old(jobs)[id]
      ensures forall id | id in jobs && id in old(queue) :: EndsAs(old(jobs)[id], jobs[id], attempts[id])
      ensures Distinct(old(queue)) ==>
        forall id | id in jobs && id in old(queue) :: jobs[id] == Processed(old(jobs), id, attempts[id], now)[id]
    {
      ghost var start, before := queue, jobs;
      ghost var k := 0;
      while queue != []
        invariant 0 <= k <= |start| && queue == start[k..]
        invariant jobs.Keys == before.Keys
        invariant forall id | id in jobs && id !in start[..k] :: jobs[id] == before[id]
        invariant forall id | id in jobs && id in start[..k] :: EndsAs(before[id], jobs[id], attempts[id])
        invariant Distinct(start) ==>
          forall id | id in jobs && id in start[..k] :: jobs[id] == Processed(before, id, attempts[id], now)[id]
        decreases |queue|
      {
        var id := queue[0];
        assert id == start[k] && start[..k + 1] == start[..k] + [id];
        queue := queue[1..];
        ProcessJob(id, attempts[id], now);
        k := k + 1;
      }
      assert start[..k] == start;
    }
  }
}
