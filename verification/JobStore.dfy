/** Leased scraper jobs: the table as a value, every way it changes, and what every run of changes keeps. */
module JobTable {
  import opened Common

  datatype JobStatus = Queued | Discovering | Acquiring | Validating | Ready | Retry | Failed | Cancelled | Done

  datatype Job = Job(id: string, source: string, target: Option<string>, status: JobStatus,
                     attempts: nat, maxAttempts: int, lease: Option<int>, lastError: string)

  datatype Row = Row(job: Job, createdAt: int, updatedAt: int)

  /** The rows, with an account of how often each job was handed out. */
  datatype Table = Table(rows: map<string, Row>, claims: map<string, nat>)

  predicate Waiting(status: JobStatus) {
    status.Queued? || status.Retry?
  }

  predicate InProgress(status: JobStatus) {
    status.Discovering? || status.Acquiring? || status.Validating?
  }

  predicate Finished(status: JobStatus) {
    status.Done? || status.Failed? || status.Cancelled?
  }

  predicate Active(status: JobStatus) {
    Waiting(status) || InProgress(status)
  }

  // ---- Single changes.

  predicate HasActive(rows: map<string, Row>, source: string, target: Option<string>) {
    exists id | id in rows :: IsActiveFor(rows[id].job, source, target)
  }

  predicate IsActiveFor(job: Job, source: string, target: Option<string>) {
    job.source == source && job.target == target && Active(job.status)
  }

  function NewJob(id: string, source: string, target: Option<string>, maxAttempts: int): Job {
    Job(id, source, target, Queued, 0, maxAttempts, None, "")
  }

  predicate Claimable(job: Job, now: int) {
    Waiting(job.status) && (job.lease.None? || job.lease.value < now) && job.attempts < job.maxAttempts
  }

  function ClaimedJob(job: Job, leaseUntil: int): Job {
    job.(attempts := job.attempts + 1, status := Discovering, lease := Some(leaseUntil))
  }

  function CancelledJob(job: Job, reason: string): Job {
    job.(status := Cancelled, lastError := reason, lease := None)
  }

  predicate Expired(job: Job, now: int) {
    job.lease.Some? && job.lease.value < now && !Finished(job.status)
  }

  function GivenUp(job: Job, retry: bool): JobStatus {
    if retry && job.attempts < job.maxAttempts then Retry else Failed
  }

  function RecoveredRow(row: Row, now: int): Row {
    if Expired(row.job, now) then
      Row(row.job.(status := GivenUp(row.job, true), lease := None, lastError := "lease expired"), row.createdAt, now)
    else row
  }

  /** What callers do to the table. A cancellation reads the row and writes it back later: the event is its write. */
  datatype Event =
    | Enqueue(newId: string, source: string, target: Option<string>, maxAttempts: int, now: int)
    | Claim(id: string, leaseUntil: int, now: int)
    | Save(job: Job, now: int)
    | Cancel(copy: Job, reason: string, now: int)
    | Recover(now: int)

  function Put(t: Table, job: Job, now: int): Table {
    if job.id in t.rows then t.(rows := t.rows[job.id := Row(job, t.rows[job.id].createdAt, now)]) else t
  }

  function Apply(t: Table, e: Event): Table {
    match e
    case Enqueue(id, source, target, maxAttempts, now) =>
      if HasActive(t.rows, source, target) then t
      else Table(t.rows[id := Row(NewJob(id, source, target, maxAttempts), now, now)], t.claims[id := 0])
    case Claim(id, leaseUntil, now) =>
      if id in t.rows && id in t.claims && Claimable(t.rows[id].job, now) then
        Put(t, ClaimedJob(t.rows[id].job, leaseUntil), now).(claims := t.claims[id := t.claims[id] + 1])
      else t
    case Save(job, now) => Put(t, job, now)
    case Cancel(copy, reason, now) => Put(t, CancelledJob(copy, reason), now)
    case Recover(now) => t.(rows := map id | id in t.rows :: RecoveredRow(t.rows[id], now))
  }

  // ---- What every run keeps.

  predicate JobOk(job: Job, claims: nat) {
    && job.attempts <= claims <= job.maxAttempts && (!job.status.Cancelled? ==> job.attempts == claims)
    && (Waiting(job.status) ==> job.attempts < job.maxAttempts && job.lease.None?)
    && (InProgress(job.status) ==> job.attempts > 0 && job.lease.Some?)
    && (Finished(job.status) ==> job.lease.None?)
    && !job.status.Ready?
  }

  ghost predicate OneActiveEach(rows: map<string, Row>) {
    forall a, b | a in rows && b in rows && a != b && Active(rows[a].job.status) && Active(rows[b].job.status) ::
      rows[a].job.source != rows[b].job.source || rows[a].job.target != rows[b].job.target
  }

  /**
   * A job was claimed at most its maximum of times and as often as its attempts say, unless a cancellation wrote back
   * an older copy; waiting jobs have attempts left; jobs in progress carry a lease; and no source and target has two
   * active jobs.
   */
  ghost predicate Inv(t: Table) {
    && t.claims.Keys == t.rows.Keys
    && (forall id | id in t.rows :: t.rows[id].job.id == id && JobOk(t.rows[id].job, t.claims[id]))
    && OneActiveEach(t.rows)
  }

  /** A worker's copy of a job may differ from the row in what a worker writes, never in what identifies the job. */
  predicate SameJob(a: Job, b: Job) {
    a.id == b.id && a.source == b.source && a.target == b.target && a.maxAttempts == b.maxAttempts
  }

  /** The forms in which a worker writes its job back: a heartbeat, or one of the three ends. */
  predicate WorkerForm(job: Job) {
    || (InProgress(job.status) && job.lease.Some?)
    || (job.lease.None?
        && (job.status.Done? || job.status.Failed? || (job.status.Retry? && job.attempts < job.maxAttempts)))
  }

  /** The worker still holds the lease of the claim it works on. */
  predicate Holds(rows: map<string, Row>, job: Job) {
    && job.id in rows && SameJob(job, rows[job.id].job)
    && InProgress(rows[job.id].job.status) && rows[job.id].job.attempts == job.attempts
  }

  /** A copy of a row as it was at some time: the job is the same, and was not claimed less often since. */
  predicate WasRead(t: Table, copy: Job) {
    && copy.id in t.rows && copy.id in t.claims && SameJob(copy,
                                                           t.rows[copy.id].job) && copy.attempts <= t.claims[copy.id]
  }

  predicate Enabled(t: Table, e: Event) {
    match e
    case Enqueue(id, source, target, maxAttempts, now) => id !in t.rows && maxAttempts >= 1
    case Save(job, now) => Holds(t.rows, job) && WorkerForm(job)
    case Cancel(copy, reason, now) => WasRead(t, copy)
    case _ => true
  }

  /** Finished jobs stay finished and as they are, except that a cancellation may relabel them. */
  ghost predicate FinishedStay(t: Table, t': Table) {
    forall id | id in t.rows && Finished(t.rows[id].job.status) ::
      && id in t'.rows && id in t'.claims && id in t.claims && t'.claims[id] == t.claims[id]
      && (t'.rows[id] == t.rows[id] || t'.rows[id].job.status.Cancelled?)
  }

  lemma PutKeeps(t: Table, job: Job, now: int)
    requires Inv(t) && job.id in t.rows && SameJob(job, t.rows[job.id].job)
    requires JobOk(job, t.claims[job.id]) && (Active(job.status) ==> Active(t.rows[job.id].job.status))
    ensures Inv(Put(t, job, now))
  {
  }

  lemma ClaimKeeps(t: Table, id: string, leaseUntil: int, now: int)
    requires Inv(t)
    ensures Inv(Apply(t, Claim(id, leaseUntil, now)))
  {
    if id in t.rows && Claimable(t.rows[id].job, now) {
      var rows := Put(t, ClaimedJob(t.rows[id].job, leaseUntil), now).rows;
      assert OneActiveEach(rows);
    }
  }

  lemma NewIsOnlyActive(rows: map<string, Row>, id: string, row: Row)
    requires OneActiveEach(rows) && id !in rows && !HasActive(rows, row.job.source, row.job.target)
    ensures OneActiveEach(rows[id := row])
  {
    hide Active;
    assert forall k | k in rows :: !IsActiveFor(rows[k].job, row.job.source, row.job.target);
  }

  lemma EnqueueKeeps(t: Table, id: string, source: string, target: Option<string>, maxAttempts: int, now: int)
    requires Inv(t) && id !in t.rows && maxAttempts >= 1
    ensures Inv(Apply(t, Enqueue(id, source, target, maxAttempts, now)))
  {
    if !HasActive(t.rows, source, target) {
      NewIsOnlyActive(t.rows, id, Row(NewJob(id, source, target, maxAttempts), now, now));
      hide OneActiveEach, HasActive;
    }
  }

  lemma RecoverKeeps(t: Table, now: int)
    requires Inv(t)
    ensures Inv(Apply(t, Recover(now)))
  {
    var rows := Apply(t, Recover(now)).rows;
    assert forall id | id in rows ::
        && (Active(rows[id].job.status) ==> Active(t.rows[id].job.status)) && SameJob(rows[id].job, t.rows[id].job);
    assert OneActiveEach(rows);
  }

  lemma StepKeepsFinished(t: Table, e: Event)
    requires Inv(t) && Enabled(t, e)
    ensures FinishedStay(t, Apply(t, e))
  {
    hide OneActiveEach;
  }

  lemma StepKeeps(t: Table, e: Event)
    requires Inv(t) && Enabled(t, e)
    ensures Inv(Apply(t, e)) && FinishedStay(t, Apply(t, e))
  {
    StepKeepsFinished(t, e);
    hide FinishedStay, OneActiveEach;
    match e
    case Enqueue(id, source, target, maxAttempts, now) => EnqueueKeeps(t, id, source, target, maxAttempts, now);
    case Claim(id, leaseUntil, now) => ClaimKeeps(t, id, leaseUntil, now);
    case Save(job, now) => PutKeeps(t, job, now);
    case Cancel(copy, reason, now) => PutKeeps(t, CancelledJob(copy, reason), now);
    case Recover(now) => RecoverKeeps(t, now);
  }

  lemma InvBasics(t: Table)
    requires Inv(t)
    ensures t.claims.Keys == t.rows.Keys && forall id | id in t.rows :: t.rows[id].job.id == id
  {
  }

  /**
   * A recovery changes exactly the rows of jobs in progress whose lease is over: such a job waits again if it has
   * attempts left, and has failed otherwise.
   */
  lemma RecoverMeans(t: Table, now: int, id: string)
    requires Inv(t) && id in t.rows
    ensures Apply(t, Recover(now)).rows.Keys == t.rows.Keys && Apply(t, Recover(now)).claims == t.claims
    ensures
      var row, row' := t.rows[id], Apply(t, Recover(now)).rows[id];
      var over := && row.job.status in {Discovering, Acquiring, Validating}
                  && row.job.lease.Some? && row.job.lease.value < now;
      && (Expired(row.job, now) <==> over)
      && (!over ==> row' == row)
      && (over ==>
            && row'.updatedAt == now && row'.createdAt == row.createdAt && row'.job != row.job
            && row'.job.status == (if row.job.attempts < row.job.maxAttempts then Retry else Failed)
            && row'.job.lease == None && row'.job.lastError == "lease expired"
            && row'.job.attempts == row.job.attempts && SameJob(row'.job, row.job))
  {
  }

  /** In every table that a run keeps in order, a job can be claimed exactly when it waits. */
  lemma ClaimableIff(t: Table, now: int, id: string)
    requires Inv(t) && id in t.rows
    ensures Claimable(t.rows[id].job, now) <==> t.rows[id].job.status in {Queued, Retry}
    ensures Claimable(t.rows[id].job, now) ==> t.rows[id].job.attempts < t.rows[id].job.maxAttempts
  {
  }

  function Run(t: Table, events: seq<Event>): Table
    decreases |events|
  {
    if events == [] then t else Run(Apply(t, events[0]), events[1..])
  }

  ghost predicate AllEnabled(t: Table, events: seq<Event>)
    decreases |events|
  {
    events == [] || (Enabled(t, events[0]) && AllEnabled(Apply(t, events[0]), events[1..]))
  }

  /** In every run in which workers write only what they hold, the invariant holds and finished jobs stay. */
  lemma {:induction false} RunKeeps(t: Table, events: seq<Event>)
    requires Inv(t) && AllEnabled(t, events)
    ensures Inv(Run(t, events)) && FinishedStay(t, Run(t, events))
    decreases |events|
  {
    if events == [] {
    } else {
      StepKeeps(t, events[0]);
      RunKeeps(Apply(t, events[0]), events[1..]);
      FinishedStayOn(t, Apply(t, events[0]), Run(t, events));
    }
  }

  predicate Cancels(e: Event, id: string) {
    e.Cancel? && e.copy.id == id
  }

  /** One event changes the status of a finished job exactly when it cancels a job that ended otherwise. */
  lemma FinishedStatusStepIff(t: Table, e: Event, id: string)
    requires Inv(t) && Enabled(t, e) && id in t.rows && Finished(t.rows[id].job.status)
    ensures id in Apply(t, e).rows && Finished(Apply(t, e).rows[id].job.status)
    ensures Apply(t, e).rows[id].job.status == t.rows[id].job.status <==>
            !Cancels(e, id) || t.rows[id].job.status.Cancelled?
  {
    StepKeepsFinished(t, e);
    if Cancels(e, id) {
      assert Apply(t, e).rows[id].job.status == Cancelled;
    } else {
      assert Apply(t, e).rows[id].job.status == t.rows[id].job.status;
    }
  }

  /** A whole run changes the status of a finished job exactly when it ended otherwise and some event cancels it. */
  lemma {:induction false} FinishedStatusIff(t: Table, events: seq<Event>, id: string)
    requires Inv(t) && AllEnabled(t, events) && id in t.rows && Finished(t.rows[id].job.status)
    ensures id in Run(t, events).rows && Finished(Run(t, events).rows[id].job.status)
    ensures Run(t, events).rows[id].job.status == t.rows[id].job.status <==>
            t.rows[id].job.status.Cancelled? || forall k | 0 <= k < |events| :: !Cancels(events[k], id)
    ensures t.rows[id].job.status.Cancelled? ==> Run(t, events).rows[id].job.status.Cancelled?
    decreases |events|
  {
    if events == [] {
      assert Run(t, events) == t;
    } else {
      var next := Apply(t, events[0]);
      StepKeeps(t, events[0]);
      FinishedStatusStepIff(t, events[0], id);
      FinishedStatusIff(next, events[1..], id);
      assert (forall k | 0 <= k < |events| :: !Cancels(events[k], id)) <==>
             !Cancels(events[0], id) && forall k | 0 <= k < |events[1..]| :: !Cancels(events[1..][k], id);
      if Cancels(events[0], id) {
        assert next.rows[id].job.status.Cancelled?;
      }
    }
  }

  /** A job that was queued, claimed and done is relabelled by a cancellation. */
  lemma DoneBecomesCancelled(id: string, source: string)
    ensures
      var done := Run(Table(map[], map[]), DoneRun(id, source));
      && AllEnabled(Table(map[], map[]), DoneRun(id, source)) && Inv(done)
      && id in done.rows && done.rows[id].job.status == Done
      && Enabled(done, Cancel(done.rows[id].job, "late", 3))
      && id in Apply(done, Cancel(done.rows[id].job, "late", 3)).rows
      && Apply(done, Cancel(done.rows[id].job, "late", 3)).rows[id].job.status == Cancelled
  {
    DoneRunResult(id, source);
    RunKeeps(Table(map[], map[]), DoneRun(id, source));
  }

  lemma DoneRunResult(id: string, source: string)
    ensures
      var t: Table, events := Table(map[], map[]), DoneRun(id, source);
      var done := ClaimedJob(NewJob(id, source, None, 1), 10).(status := Done, lease := None);
      AllEnabled(t, events) && Run(t, events) == Table(map[id := Row(done, 0, 2)], map[id := 1])
  {
    var t: Table := Table(map[], map[]);
    var queued := NewJob(id, source, None, 1);
    var claimed := ClaimedJob(queued, 10);
    var a := Apply(t, Enqueue(id, source, None, 1, 0));
    assert a == Table(map[id := Row(queued, 0, 0)], map[id := 0]);
    var b := Apply(a, Claim(id, 10, 1));
    assert b.rows == map[id := Row(claimed, 0, 1)];
    var done := claimed.(status := Done, lease := None);
    var c := Apply(b, Save(done, 2));
    assert c.rows == map[id := Row(done, 0, 2)];
    var events := DoneRun(id, source);
    assert events[1..] == [Claim(id, 10, 1), Save(done, 2)];
    assert events[1..][1..] == [Save(done, 2)] && events[1..][1..][1..] == [];
    assert Run(c, []) == c && Run(b, [Save(done, 2)]) == c && Run(a, events[1..]) == c && Run(t, events) == c;
    assert AllEnabled(c, []) && AllEnabled(b, [Save(done, 2)]) && AllEnabled(a, events[1..]) && AllEnabled(t, events);
  }

  function DoneRun(id: string, source: string): seq<Event> {
    var claimed := ClaimedJob(NewJob(id, source, None, 1), 10);
    [Enqueue(id, source, None, 1, 0), Claim(id, 10, 1), Save(claimed.(status := Done, lease := None), 2)]
  }

  lemma FinishedStayOn(a: Table, b: Table, c: Table)
    requires FinishedStay(a, b) && FinishedStay(b, c)
    ensures FinishedStay(a, c)
  {
  }

  /** From an empty table: no job is ever handed out more often than its maximum. */
  lemma ClaimsAreBounded(events: seq<Event>, id: string)
    requires AllEnabled(Table(map[], map[]), events)
    ensures
      var t := Run(Table(map[], map[]), events);
      id in t.rows ==> id in t.claims && t.claims[id] <= t.rows[id].job.maxAttempts
  {
    RunKeeps(Table(map[], map[]), events);
  }

  // ---- How far the worker's duty can be relaxed.

  /** A heartbeat by a worker that claimed this job at some time, and may have lost it since. */
  predicate OldCopy(t: Table, job: Job) {
    WasRead(t, job) && InProgress(job.status) && job.lease.Some? && job.attempts > 0
  }

  /** A late heartbeat does no harm exactly while the job is unfinished and was not claimed again. */
  lemma HeartbeatIsSafeIff(t: Table, job: Job, now: int)
    requires Inv(t) && OldCopy(t, job)
    ensures Inv(Apply(t, Save(job, now))) && FinishedStay(t, Apply(t, Save(job, now))) <==>
            !Finished(t.rows[job.id].job.status) && t.rows[job.id].job.attempts == job.attempts
  {
    var row, t' := t.rows[job.id], Apply(t, Save(job, now));
    assert t'.rows[job.id].job == job;
    if !Finished(row.job.status) && row.job.attempts == job.attempts {
      PutKeeps(t, job, now);
    } else if Finished(row.job.status) {
      assert !FinishedStay(t, t');
    } else {
      assert !JobOk(job, t'.claims[job.id]);
    }
  }

  /** The worker that claimed the job of a done run beats once more, from the copy it had been handed. */
  lemma LateHeartbeat(id: string, source: string)
    ensures
      var done := Run(Table(map[], map[]), DoneRun(id, source));
      var late := ClaimedJob(NewJob(id, source, None, 1), 10);
      && Inv(done) && OldCopy(done, late)
      && !(Inv(Apply(done, Save(late, 3))) && FinishedStay(done, Apply(done, Save(late, 3))))
      && id in Apply(done, Save(late, 3)).rows && InProgress(Apply(done, Save(late, 3)).rows[id].job.status)
  {
    DoneBecomesCancelled(id, source);
    DoneRunResult(id, source);
    HeartbeatIsSafeIff(Run(Table(map[], map[]), DoneRun(id, source)), ClaimedJob(NewJob(id, source, None, 1), 10), 3);
  }

  /** A row that was read stays one that was read, whatever happens until it is written back. */
  lemma {:induction false} ReadStaysRead(t: Table, events: seq<Event>, copy: Job)
    requires Inv(t) && AllEnabled(t, events) && WasRead(t, copy)
    ensures WasRead(Run(t, events), copy)
    decreases |events|
  {
    if events == [] {
      assert Run(t, events) == t;
    } else {
      StepKeeps(t, events[0]);
      StepKeepsRead(t, events[0], copy);
      ReadStaysRead(Apply(t, events[0]), events[1..], copy);
    }
  }

  lemma StepKeepsRead(t: Table, e: Event, copy: Job)
    requires Inv(t) && Enabled(t, e) && WasRead(t, copy)
    ensures WasRead(Apply(t, e), copy)
  {
    hide OneActiveEach;
  }

  /** Reading a row, then any run, then writing the cancellation: every rule holds again. */
  lemma CancelAcrossRun(t: Table, events: seq<Event>, id: string, reason: string, now: int)
    requires Inv(t) && AllEnabled(t, events) && id in t.rows
    ensures
      var before := Run(t, events);
      var after := Apply(before, Cancel(t.rows[id].job, reason, now));
      && Inv(after) && FinishedStay(before, after) && id in after.rows && after.rows[id].job.status.Cancelled?
      && after.rows[id].job.attempts == t.rows[id].job.attempts <= after.claims[id]
  {
    ReadStaysRead(t, events, t.rows[id].job);
    RunKeeps(t, events);
    StepKeeps(Run(t, events), Cancel(t.rows[id].job, reason, now));
  }

  /** A job claimed between the read and the write of its cancellation: the row forgets the claim. */
  lemma CancelForgetsAClaim(id: string, source: string)
    ensures
      var queued := Apply(Table(map[], map[]), Enqueue(id, source, None, 1, 0));
      var claimed := Apply(queued, Claim(id, 10, 1));
      && id in queued.rows
      && var after := Apply(claimed, Cancel(queued.rows[id].job, "stop", 2));
         && Enabled(claimed, Cancel(queued.rows[id].job, "stop", 2))
         && id in after.rows && id in after.claims && after.rows[id].job.attempts == 0 && after.claims[id] == 1
  {
  }

  /** Enqueueing keeps the invariant exactly when it finds an active job or allows at least one attempt. */
  lemma EnqueueIsSafeIff(t: Table, id: string, source: string, target: Option<string>, maxAttempts: int, now: int)
    requires Inv(t) && id !in t.rows
    ensures Inv(Apply(t, Enqueue(id, source, target, maxAttempts, now))) <==>
            HasActive(t.rows, source, target) || maxAttempts >= 1
  {
    var t' := Apply(t, Enqueue(id, source, target, maxAttempts, now));
    if !HasActive(t.rows, source, target) {
      assert t'.rows[id].job == NewJob(id, source, target, maxAttempts);
      if maxAttempts >= 1 {
        StepKeeps(t, Enqueue(id, source, target, maxAttempts, now));
      } else {
        assert !JobOk(t'.rows[id].job, t'.claims[id]);
      }
    }
  }
}

/** The store itself, and the worker that runs one job at a time against it. */
module JobStore {
  import opened Common
  import opened JobTable

  datatype Outcome = Success | NotFound | LayoutChanged | ChallengeRequired | RateLimited | ValidationFailed
                   | TemporaryFailure | PermanentFailure | ManualReview

  class SQLiteJobStore {
    var rows: map<string, Row>
    ghost var claims: map<string, nat>

    constructor ()
      ensures Contents() == Table(map[], map[]) && Valid()
    {
      rows, claims := map[], map[];
    }

    ghost function Contents(): Table
      reads this
    {
      Table(rows, claims)
    }

    ghost predicate Valid()
      reads this
    {
      Inv(Contents())
    }

    /** Returns the active job of this source and target, or inserts one under a new id. */
    method Enqueue(newId: string, source: string, target: Option<string>, maxAttempts: int, now: int) returns (job: Job)
      requires newId !in rows && forall id | id in rows :: rows[id].job.id == id
      modifies this
      ensures Contents() == Apply(old(Contents()), Event.Enqueue(newId, source, target, maxAttempts, now))
      ensures job.id in rows && rows[job.id].job == job
      ensures job.source == source && job.target == target
      ensures job.status in {Queued, Retry, Discovering, Acquiring, Validating}
      ensures job.id == newId <==>
                forall id | id in old(rows)
                            && old(rows)[id].job.source == source && old(rows)[id].job.target == target ::
                  old(rows)[id].job.status !in {Queued, Retry, Discovering, Acquiring, Validating}
      ensures job.id == newId ==> job == Job(newId, source, target, Queued, 0, maxAttempts, None, "")
      ensures old(HasActive(rows, source, target)) ==>
                forall id | id in rows && IsActiveFor(rows[id].job, source, target) ::
                    rows[job.id].createdAt <= rows[id].createdAt
    {
      var active := set id | id in rows && IsActiveFor(rows[id].job, source, target);
      assert forall id | id in rows && IsActiveFor(rows[id].job, source, target) :: id in active;
      if active != {} {
        var oldest := Oldest(rows, active);
        return rows[oldest].job;
      }
      job := NewJob(newId, source, target, maxAttempts);
      rows := rows[newId := Row(job, now, now)];
      claims := claims[newId := 0];
    }

    /** The query's ORDER BY created_at LIMIT 1. */
    static method Oldest(rows: map<string, Row>, ids: set<string>) returns (best: string)
      requires ids != {} && ids <= rows.Keys
      ensures best in ids && forall id | id in ids :: rows[best].createdAt <= rows[id].createdAt
    {
      best :| best in ids;
      var rest := ids - {best};
      while rest != {}
        invariant best in ids && rest <= ids
        invariant forall id | id in ids && id !in rest :: rows[best].createdAt <= rows[id].createdAt
      {
        var id :| id in rest;
        if rows[id].createdAt < rows[best].createdAt {
          best := id;
        }
        rest := rest - {id};
      }
    }

    /** Hands out the claimable job that was updated first, if there is one. */
    method Claim(leaseSeconds: int, now: int) returns (job: Option<Job>)
      requires rows.Keys <= claims.Keys && forall id | id in rows :: rows[id].job.id == id
      modifies this
      ensures job.None? ==> Contents() == old(Contents()) && forall id | id in rows :: !Claimable(rows[id].job, now)
      ensures job.Some? ==>
                && job.value.id in old(rows) && Claimable(old(rows)[job.value.id].job, now)
                && Contents() == Apply(old(Contents()), Event.Claim(job.value.id, now + Max(1, leaseSeconds), now))
                && job.value.id in rows && rows[job.value.id].job == job.value
                && (var before := old(rows)[job.value.id];
                    && job.value == before.job.(attempts := before.job.attempts + 1, status := Discovering,
                                                lease := Some(now + if leaseSeconds > 1 then leaseSeconds else 1))
                    && forall id | id in old(rows) && Claimable(old(rows)[id].job, now) ::
                         var other := old(rows)[id];
                         || before.updatedAt < other.updatedAt
                         || (before.updatedAt == other.updatedAt && before.createdAt <= other.createdAt))
    {
      var candidates := set id | id in rows && Claimable(rows[id].job, now);
      assert forall id | id in rows && Claimable(rows[id].job, now) :: id in candidates;
      if candidates == {} {
        return None;
      }
      var first := First(rows, candidates);
      var claimed := ClaimedJob(rows[first].job, now + Max(1, leaseSeconds));
      rows := rows[first := Row(claimed, rows[first].createdAt, now)];
      claims := claims[first := claims[first] + 1];
      return Some(claimed);
    }

    /** The query's ORDER BY updated_at, created_at LIMIT 1. */
    static method First(rows: map<string, Row>, ids: set<string>) returns (best: string)
      requires ids != {} && ids <= rows.Keys
      ensures best in ids && forall id | id in ids :: Earlier(rows[best], rows[id])
    {
      best :| best in ids;
      var rest := ids - {best};
      while rest != {}
        invariant best in ids && rest <= ids
        invariant forall id | id in ids && id !in rest :: Earlier(rows[best], rows[id])
      {
        var id :| id in rest;
        if !Earlier(rows[best], rows[id]) {
          best := id;
        }
        rest := rest - {id};
      }
    }

    /** Writes a whole job back; a row that is not there is not created. */
    method Save(job: Job, now: int)
      modifies this`rows
      ensures Contents() == Apply(old(Contents()), Event.Save(job, now))
    {
      if job.id in rows {
        rows := rows[job.id := Row(job, rows[job.id].createdAt, now)];
      }
    }

    method Heartbeat(job: Job, leaseSeconds: int, now: int) returns (job': Job)
      modifies this`rows
      ensures job' == job.(lease := Some(now + Max(1, leaseSeconds)))
      ensures Contents() == Apply(old(Contents()), Event.Save(job', now))
    {
      job' := job.(lease := Some(now + Max(1, leaseSeconds)));
      Save(job', now);
    }

    method Complete(job: Job, now: int)
      modifies this`rows
      ensures Contents() == Apply(old(Contents()), Event.Save(job.(status := Done, lease := None), now))
    {
      Save(job.(status := Done, lease := None), now);
    }

    method Fail(job: Job, error: string, retry: bool, now: int)
      modifies this`rows
      ensures Contents() ==
              Apply(old(Contents()), Event.Save(job.(status := GivenUp(job, retry), lastError := error, lease := None),
                                                now))
    {
      Save(job.(status := GivenUp(job, retry), lastError := error, lease := None), now);
    }

    /** The locked read: a copy of the row. */
    method GetJob(id: string) returns (job: Option<Job>)
      ensures job == if id in rows then Some(rows[id].job) else None
    {
      job := if id in rows then Some(rows[id].job) else None;
    }

    /** Reads, then writes back; other callers may come between, as the events of the table allow. */
    method Cancel(id: string, reason: string, now: int) returns (known: bool)
      requires forall k | k in rows :: rows[k].job.id == k
      modifies this`rows
      ensures known == (id in old(rows))
      ensures Contents() ==
              if known then Apply(old(Contents()), Event.Cancel(old(rows)[id].job, reason, now)) else old(Contents())
      ensures known ==>
                && id in rows
                && rows[id].job == old(rows)[id].job.(status := Cancelled, lastError := reason, lease := None)
    {
      var job := GetJob(id);
      known := job.Some?;
      if known {
        CancelCopy(job.value, reason, now);
      }
    }

    /** The locked write of a copy that was read before. */
    method CancelCopy(copy: Job, reason: string, now: int)
      modifies this`rows
      ensures Contents() == Apply(old(Contents()), Event.Cancel(copy, reason, now))
    {
      Save(CancelledJob(copy, reason), now);
    }

    /** Gives up every job whose lease has run out, one row after another. */
    method RecoverExpired(now: int) returns (count: nat)
      modifies this`rows
      ensures Contents() == Apply(old(Contents()), Event.Recover(now))
      ensures count == |set id | id in old(rows) && Expired(old(rows)[id].job, now)|
    {
      var expired := set id | id in rows && Expired(rows[id].job, now);
      var rest := expired;
      while rest != {}
        invariant rest <= expired && rows.Keys == old(rows).Keys
        invariant forall id | id in rows ::
                    rows[id] == if id in expired - rest then RecoveredRow(old(rows)[id], now) else old(rows)[id]
      {
        var id :| id in rest;
        rows := rows[id := RecoveredRow(rows[id], now)];
        rest := rest - {id};
      }
      assert forall id | id in rows :: rows[id] == RecoveredRow(old(rows)[id], now);
      assert rows == map id | id in old(rows) :: RecoveredRow(old(rows)[id], now);
      count := |expired|;
    }
  }

  predicate Earlier(a: Row, b: Row) {
    a.updatedAt < b.updatedAt || (a.updatedAt == b.updatedAt && a.createdAt <= b.createdAt)
  }

  /** What a worker does with the job it claimed, given how discovery and acquisition turn out. */
  class IngestionScheduler {
    const store: SQLiteJobStore
    const leaseSeconds: int

    constructor (store: SQLiteJobStore, leaseSeconds: int)
      ensures this.store == store && this.leaseSeconds == Max(30, leaseSeconds)
    {
      this.store, this.leaseSeconds := store, Max(30, leaseSeconds);
    }

    /** The worker's copy is the row, as the last write left it. */
    ghost predicate Working(job: Job)
      reads store
    {
      store.Valid() && job.id in store.rows && store.rows[job.id].job == job && InProgress(job.status) &&
          job.lease.Some?
    }

    /** Records an outcome with a heartbeat. */
    method Record(job: Job, error: string, now: int) returns (job': Job)
      requires Working(job)
      modifies store`rows
      ensures Working(job') && job'.(lastError := job.lastError, lease := job.lease) == job
      ensures store.rows.Keys == old(store.rows).Keys
    {
      ghost var before := store.Contents();
      job' := store.Heartbeat(job.(lastError := error), leaseSeconds, now);
      StepKeeps(before, Event.Save(job', now));
    }

    /** Ends the job: done on success, another attempt on a passing failure if one is left, failed otherwise. */
    method Finish(job: Job, outcome: Outcome, error: string, now: int)
      requires Working(job)
      modifies store`rows
      ensures store.Valid() && job.id in store.rows
      ensures store.rows[job.id].job.status ==
                if outcome.Success? then Done
                else if (outcome.RateLimited? || outcome.TemporaryFailure?) && job.attempts < job.maxAttempts then Retry
                else Failed
      ensures store.rows[job.id].job.attempts == job.attempts
    {
      var recorded := Record(job, error, now);
      ghost var before := store.Contents();
      if outcome.Success? {
        StepKeeps(before, Event.Save(recorded.(status := Done, lease := None), now));
        store.Complete(recorded, now);
        return;
      }
      var retry := outcome.RateLimited? || outcome.TemporaryFailure?;
      StepKeeps(before, Event.Save(recorded.(status := GivenUp(recorded, retry), lastError := error, lease := None),
                                   now));
      store.Fail(recorded, error, retry, now);
    }

    /**
     * One claimed job, from its first record to its end, with any number of progress heartbeats. Every write
     * this makes is one that the holder of the lease may make.
     */
    method RunJob(job: Job, sourceKnown: bool, discovery: Outcome, progress: seq<int>, acquisition: Outcome, now: int)
      requires Working(job)
      modifies store`rows
      ensures store.Valid() && job.id in store.rows && store.rows[job.id].job.attempts == job.attempts
      ensures
        var last := if !sourceKnown then PermanentFailure else if discovery.Success? then acquisition else discovery;
        store.rows[job.id].job.status ==
          if last.Success? then Done
          else if (last.RateLimited? || last.TemporaryFailure?) && job.attempts < job.maxAttempts then Retry
          else Failed
    {
      hide Inv, FinishedStay;
      if !sourceKnown {
        Finish(job, PermanentFailure, "source no longer exists", now);
        return;
      }
      var current := Record(job, "", now);
      if discovery.Success? {
        ghost var before := store.Contents();
        current := store.Heartbeat(current.(status := Acquiring), leaseSeconds, now);
        StepKeeps(before, Event.Save(current, now));
        for k := 0 to |progress|
          invariant Working(current) && current.id == job.id
          invariant current.attempts == job.attempts && current.maxAttempts == job.maxAttempts
        {
          before := store.Contents();
          current := store.Heartbeat(current, leaseSeconds, progress[k]);
          StepKeeps(before, Event.Save(current, progress[k]));
        }
        Finish(current, acquisition, "acquisition failed", now);
      } else {
        Finish(current, discovery, "discovery failed", now);
      }
    }

    /** Recover, enqueue what is due, claim, and run the claimed job to its end. */
    method RunOnce(due: seq<(string, string)>, sources: set<string>, discovery: Outcome, progress: seq<int>,
                   acquisition: Outcome, now: int) returns (claimed: Option<Job>)
      requires store.Valid()
      requires forall k | 0 <= k < |due| :: due[k].0 !in store.rows
      requires forall i, j | 0 <= i < j < |due| :: due[i].0 != due[j].0
      modifies store
      ensures store.Valid()
      ensures claimed.Some? ==>
                && claimed.value.id in store.rows && !InProgress(store.rows[claimed.value.id].job.status)
                && store.rows[claimed.value.id].job.attempts == claimed.value.attempts
      ensures claimed.None? ==> forall id | id in store.rows :: !Claimable(store.rows[id].job, now)
    {
      hide Inv, FinishedStay, HasActive;
      StepKeeps(store.Contents(), Event.Recover(now));
      var _ := store.RecoverExpired(now);
      for k := 0 to |due|
        invariant store.Valid() && forall m | k <= m < |due| :: due[m].0 !in store.rows
      {
        InvBasics(store.Contents());
        StepKeeps(store.Contents(), Event.Enqueue(due[k].0, due[k].1, None, 5, now));
        var _ := store.Enqueue(due[k].0, due[k].1, None, 5, now);
      }
      ghost var before := store.Contents();
      InvBasics(before);
      claimed := store.Claim(leaseSeconds, now);
      if claimed.None? {
        return;
      }
      ClaimKeeps(before, claimed.value.id, now + Max(1, leaseSeconds), now);
      RunJob(claimed.value, claimed.value.source in sources, discovery, progress, acquisition, now);
    }
  }
}
