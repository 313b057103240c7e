/**
 * The memo of the recovery process: when passing over a job whose bookkeeping was already replayed is the
 * same as replaying it again.
 */
module RecoveryMemo {
  import opened Basics
  import opened RecoverySweep
  import opened RecoverySweepProofs
  import opened RecoveryDatabase

  /**
   * A job exhausts its retries; the sweep comes to a failed job, and the database accepts the call or not;
   * the live failure handler's call goes through, and the handler hears of it or not; the memo is lost in a
   * restart or cleared; the host retries a batch; and batches and messages move on by themselves.
   */
  datatype Event =
    | Fails(job: SendJob)
    | Visits(job: SendJob, now: int, written: bool)
    | Handles(job: SendJob, now: int, heard: bool)
    | Forgets
    | HostRetries(batch: string, clock: int)
    | StartsDispatch(batch: string, clock: int)
    | Cancels(batch: string)
    | Claims(message: string)
    | Returns(message: string)
    | Ends(message: string)

  /**
   * The database and the memo; the failed jobs that a listing can still show; the latest exhaustion of each
   * job id; and, for reasoning, the bookkeeping calls that went through.
   */
  datatype World = World(
    db: Database, memo: set<string>, failed: set<SendJob>, latest: map<string, int>, recorded: set<Record>)

  predicate IsExhaustion(world: World, job: SendJob) {
    && job.id == Some(JobName(job.operation, job.target))
    && job.finishedOn.Some? && Exhausted(job)
    && (job.id.value in world.latest ==> world.latest[job.id.value] <= job.finishedOn.value)
  }

  function Move(db: Database, message: string, status: Status, attempts: nat): Database
    requires message in db.messages
  {
    db.(messages := db.messages[message := db.messages[message].(status := status, attempts := attempts)])
  }

  function WithBatch(db: Database, batch: string, value: Batch): Database {
    db.(batches := db.batches[batch := value])
  }

  function Next(world: World, event: Event): World {
    var db := world.db;
    match event
    case Fails(job) =>
      if !IsExhaustion(world, job) then world
      else world.(failed := world.failed + {job}, latest := world.latest[job.id.value := job.finishedOn.value])
    case Visits(job, now, written) =>
      if job !in world.failed then world
      else
        var sweep := Visit(Sweep(world.memo, [], Going), Some(job), now, _ => written);
        world.(db := ApplyLog(db, sweep.log), memo := sweep.memo,
               recorded := world.recorded + set r | r in sweep.log)
    case Handles(job, now, heard) =>
      if job !in world.failed || job.id.None? then world
      else
        var record := Record(job, ExhaustedAt(job, now));
        world.(db := RecordExhausted(db, record), recorded := world.recorded + {record},
               memo := if heard then world.memo + {job.id.value} else world.memo)
    case Forgets => world.(memo := {})
    case HostRetries(batch, clock) =>
      var id := JobName(DispatchBatch, batch);
      if id in world.latest then world.(db := RetryBatch(db, batch, world.latest[id], clock)) else world
    case StartsDispatch(batch, clock) =>
      if IsLiveBatch(db, batch) && db.batches[batch].dispatchStartedAt.None?
      then world.(db := WithBatch(db, batch, db.batches[batch].(dispatchStartedAt := Some(clock))))
      else world
    case Cancels(batch) =>
      if batch in db.batches then world.(db := WithBatch(db, batch, db.batches[batch].(cancelled := true))) else world
    case Claims(m) =>
      if m in db.messages && db.messages[m].status == Queued
      then world.(db := Move(db, m, Sending, db.messages[m].attempts + 1)) else world
    case Returns(m) =>
      if m in db.messages && db.messages[m].status == Sending
      then world.(db := Move(db, m, Queued, db.messages[m].attempts)) else world
    case Ends(m) =>
      if m in db.messages then world.(db := Move(db, m, Done, db.messages[m].attempts)) else world
  }

  function Start(db: Database): World {
    World(db, {}, {}, map[], {})
  }

  /** The world after a schedule, in a process with its memo, or in one that remembers nothing. */
  function From(world: World, events: seq<Event>, remembers: bool): World {
    if events == [] then world
    else
      var before := From(world, events[..|events| - 1], remembers);
      Next(if remembers then before else before.(memo := {}), events[|events| - 1])
  }

  function Run(db: Database, events: seq<Event>, remembers: bool): World {
    From(Start(db), events, remembers)
  }

  // ----- What every schedule keeps -----

  ghost predicate IsTracked(world: World) {
    && (forall job :: job in world.failed ==>
          && job.id == Some(JobName(job.operation, job.target)) && job.finishedOn.Some?
          && job.id.value in world.latest && job.finishedOn.value <= world.latest[job.id.value])
    && (forall r :: r in world.recorded ==> r.job in world.failed && Some(r.exhaustedAt) == r.job.finishedOn)
  }

  ghost predicate IsRecorded(world: World, id: string) {
    exists r :: r in world.recorded && r.job.id == Some(id)
  }

  /** One step of a sweep over a failed job: nothing, or one call. */
  lemma VisitRecordsAtMostItsJob(world: World, job: SendJob, now: int, written: bool)
    requires IsTracked(world) && job in world.failed
    ensures var sweep := Visit(Sweep(world.memo, [], Going), Some(job), now, _ => written);
            var record := Record(job, ExhaustedAt(job, now));
            if written && Qualifies(job, now) && job.id.value !in world.memo
            then sweep.log == [record] && sweep.memo == world.memo + {job.id.value} &&
                 ApplyLog(world.db, sweep.log) == RecordExhausted(world.db, record)
            else sweep.log == [] && sweep.memo == world.memo && ApplyLog(world.db, sweep.log) == world.db
  {
    var record := Record(job, ExhaustedAt(job, now));
    assert [] + [record] == [record] && [record][..0] == [];
    assert ApplyLog(world.db, []) == world.db;
  }

  lemma NextIsTracked(world: World, event: Event)
    requires IsTracked(world)
    ensures IsTracked(Next(world, event))
  {
    if event.Visits? && event.job in world.failed {
      VisitRecordsAtMostItsJob(world, event.job, event.now, event.written);
    }
  }

  lemma {:induction false} EveryWorldIsTracked(db: Database, events: seq<Event>, remembers: bool)
    ensures IsTracked(Run(db, events, remembers))
  {
    if events != [] {
      var before := Run(db, events[..|events| - 1], remembers);
      EveryWorldIsTracked(db, events[..|events| - 1], remembers);
      NextIsTracked(if remembers then before else before.(memo := {}), events[|events| - 1]);
    }
  }

  lemma NextKeepsMemoRecorded(world: World, event: Event)
    requires IsTracked(world) && forall id :: id in world.memo ==> IsRecorded(world, id)
    ensures forall id :: id in Next(world, event).memo ==> IsRecorded(Next(world, event), id)
  {
    var after := Next(world, event);
    if event.Visits? && event.job in world.failed {
      VisitRecordsAtMostItsJob(world, event.job, event.now, event.written);
    }
    assert world.recorded <= after.recorded;
    forall id | id in after.memo ensures IsRecorded(after, id) {
      if id in world.memo {
        var r :| r in world.recorded && r.job.id == Some(id);
        assert r in after.recorded;
      } else {
        assert Record(event.job, ExhaustedAt(event.job, event.now)) in after.recorded;
      }
    }
  }

  /** In every reachable state, each memoised id has had a bookkeeping call go through. */
  lemma {:induction false} MemoisedJobsAreRecorded(db: Database, events: seq<Event>)
    ensures forall id :: id in Run(db, events, true).memo ==> IsRecorded(Run(db, events, true), id)
  {
    if events != [] {
      MemoisedJobsAreRecorded(db, events[..|events| - 1]);
      EveryWorldIsTracked(db, events[..|events| - 1], true);
      NextKeepsMemoRecorded(Run(db, events[..|events| - 1], true), events[|events| - 1]);
    }
  }

  /** The failure handler spares the sweep a job exactly when it hears that its call went through. */
  lemma HandlerSparesTheSweep(world: World, job: SendJob, now: int, heard: bool)
    requires IsTracked(world) && job in world.failed
    ensures var after := Next(world, Handles(job, now, heard));
            && Record(job, job.finishedOn.value) in after.recorded
            && after.memo == (if heard then world.memo + {job.id.value} else world.memo)
            && (heard ==> forall later, written :: Next(after, Visits(job, later, written)).db == after.db)
  {
    if heard {
      var after := Next(world, Handles(job, now, heard));
      NextIsTracked(world, Handles(job, now, heard));
      forall later, written ensures Next(after, Visits(job, later, written)).db == after.db {
        VisitRecordsAtMostItsJob(after, job, later, written);
      }
    }
  }

  // ----- When the memo is harmless -----

  /** The sweep passes over a memoised job that the database would still accept. */
  ghost predicate SkipsAnAdmitted(world: World, event: Event) {
    event.Visits? && event.written && event.job in world.failed && event.job.id.Some? &&
    event.job.id.value in world.memo && Qualifies(event.job, event.now) &&
    Admits(world.db, Record(event.job, ExhaustedAt(event.job, event.now)))
  }

  ghost predicate Agrees(db: Database, events: seq<Event>) {
    Run(db, events, true).db == Run(db, events, false).db
  }

  lemma {:induction false} SameQueue(db: Database, events: seq<Event>)
    ensures Run(db, events, true).failed == Run(db, events, false).failed
    ensures Run(db, events, true).latest == Run(db, events, false).latest
  {
    if events != [] {
      var front := events[..|events| - 1];
      SameQueue(db, front);
      NextSameQueue(Run(db, front, true), Run(db, front, false).(memo := {}), events[|events| - 1]);
    }
  }

  lemma NextSameQueue(world: World, other: World, event: Event)
    requires other.failed == world.failed && other.latest == world.latest
    ensures Next(other, event).failed == Next(world, event).failed
    ensures Next(other, event).latest == Next(world, event).latest
  {
  }

  lemma OneStepAgreesExactly(world: World, other: World, event: Event)
    requires IsTracked(world) && IsTracked(other) && other.db == world.db && other.memo == {}
    requires other.failed == world.failed && other.latest == world.latest
    ensures Next(world, event).db == Next(other, event).db <==> !SkipsAnAdmitted(world, event)
  {
    if event.Visits? && event.job in world.failed {
      VisitRecordsAtMostItsJob(world, event.job, event.now, event.written);
      VisitRecordsAtMostItsJob(other, event.job, event.now, event.written);
      AdmitsMeansChanges(world.db, Record(event.job, ExhaustedAt(event.job, event.now)));
    }
  }

  lemma NextAgreesExactly(db: Database, events: seq<Event>, n: nat)
    requires n < |events| && Agrees(db, events[..n])
    ensures Agrees(db, events[..n + 1]) <==> !SkipsAnAdmitted(Run(db, events[..n], true), events[n])
  {
    assert events[..n + 1][..n] == events[..n];
    EveryWorldIsTracked(db, events[..n], true);
    EveryWorldIsTracked(db, events[..n], false);
    SameQueue(db, events[..n]);
    OneStepAgreesExactly(Run(db, events[..n], true), Run(db, events[..n], false).(memo := {}), events[n]);
  }

  lemma {:induction false} AgreesUpTo(db: Database, events: seq<Event>, n: nat)
    requires n <= |events|
    requires forall k :: 0 <= k < n ==> !SkipsAnAdmitted(Run(db, events[..k], true), events[k])
    ensures Agrees(db, events[..n])
  {
    if n > 0 {
      AgreesUpTo(db, events, n - 1);
      NextAgreesExactly(db, events, n - 1);
    } else {
      assert events[..0] == [];
    }
  }

  /**
   * Over any schedule, the database is at every moment as if nothing had ever been memoised, if and only if
   * no sweep ever passes over a memoised job that the database would still accept.
   */
  lemma MemoIsHarmlessExactly(db: Database, events: seq<Event>)
    ensures (forall n :: 0 <= n <= |events| ==> Agrees(db, events[..n])) <==>
            forall n :: 0 <= n < |events| ==> !SkipsAnAdmitted(Run(db, events[..n], true), events[n])
  {
    if forall n :: 0 <= n <= |events| ==> Agrees(db, events[..n]) {
      forall n | 0 <= n < |events| ensures !SkipsAnAdmitted(Run(db, events[..n], true), events[n]) {
        assert Agrees(db, events[..n]) && Agrees(db, events[..n + 1]);
        NextAgreesExactly(db, events, n);
      }
    }
    if forall n :: 0 <= n < |events| ==> !SkipsAnAdmitted(Run(db, events[..n], true), events[n]) {
      forall n | 0 <= n <= |events| ensures Agrees(db, events[..n]) { AgreesUpTo(db, events, n); }
    }
  }

  // ----- Batches are fenced, messages are not -----

  ghost predicate BatchesAreSettled(world: World) {
    forall r :: r in world.recorded && r.job.operation == DispatchBatch ==> !Admits(world.db, r)
  }

  /** Only a retry puts an untried message back in the queue. */
  lemma OnlyRetriesReopen(world: World, event: Event, batch: string, message: string)
    requires IsTracked(world) && IsPlausible(world.db)
    requires !Waits(world.db, batch, message) && Waits(Next(world, event).db, batch, message)
    ensures event.HostRetries? && event.batch == batch && Reopens(world.db, batch, message)
  {
    if event.Visits? && event.job in world.failed {
      VisitRecordsAtMostItsJob(world, event.job, event.now, event.written);
    }
  }

  lemma NextIsPlausible(world: World, event: Event)
    requires IsTracked(world) && IsPlausible(world.db)
    ensures IsPlausible(Next(world, event).db)
  {
    if event.Visits? && event.job in world.failed {
      VisitRecordsAtMostItsJob(world, event.job, event.now, event.written);
    }
  }

  lemma RecordedMeansSettled(db: Database, record: Record)
    ensures !Admits(RecordExhausted(db, record), record)
  {
  }

  lemma RecordingKeepsSettled(db: Database, record: Record, other: Record)
    requires !Admits(db, other)
    ensures !Admits(RecordExhausted(db, record), other)
  {
    var after := RecordExhausted(db, record);
    assert after.batches == db.batches;
    forall b, m | Waits(after, b, m) ensures Waits(db, b, m) {}
  }

  /** The fence of a retry lies after every exhaustion of the batch's job so far. */
  lemma RetryFencesTheBatch(world: World, batch: string, clock: int, record: Record)
    requires IsTracked(world) && record.job in world.failed && Some(record.exhaustedAt) == record.job.finishedOn
    requires record.job.operation == DispatchBatch && record.job.target == batch
    ensures !Admits(Next(world, HostRetries(batch, clock)).db, record)
  {
    assert JobName(DispatchBatch, batch) in world.latest;
  }

  lemma NextKeepsBatchesSettled(world: World, event: Event)
    requires IsTracked(world) && IsPlausible(world.db) && BatchesAreSettled(world)
    ensures BatchesAreSettled(Next(world, event))
  {
    var after := Next(world, event);
    match event
    case Visits(job, now, written) =>
      if job in world.failed {
        VisitRecordsAtMostItsJob(world, job, now, written);
        RecordKeepsBatchesSettled(world, Record(job, ExhaustedAt(job, now)));
      }
    case Handles(job, now, _) => RecordKeepsBatchesSettled(world, Record(job, ExhaustedAt(job, now)));
    case HostRetries(batch, clock) =>
      forall r | r in world.recorded && r.job.operation == DispatchBatch ensures !Admits(after.db, r) {
        if r.job.target == batch {
          RetryFencesTheBatch(world, batch, clock, r);
        } else {
          OthersStaySettled(world, event, r);
        }
      }
    case _ =>
      forall r | r in world.recorded && r.job.operation == DispatchBatch ensures !Admits(after.db, r) {
        OthersStaySettled(world, event, r);
      }
  }

  /** What a batch job can do does not grow by an event other than a retry of the batch. */
  lemma OthersStaySettled(world: World, event: Event, record: Record)
    requires IsTracked(world) && IsPlausible(world.db)
    requires record.job.operation == DispatchBatch && !Admits(world.db, record)
    requires !event.Visits? && !event.Handles? && !(event.HostRetries? && event.batch == record.job.target)
    ensures !Admits(Next(world, event).db, record)
  {
    var batch, after := record.job.target, Next(world, event).db;
    assert PassesFence(after, batch, record.exhaustedAt) ==> PassesFence(world.db, batch, record.exhaustedAt);
    if m :| Waits(after, batch, m) && !Waits(world.db, batch, m) { OnlyRetriesReopen(world, event, batch, m); }
  }

  lemma RecordKeepsBatchesSettled(world: World, record: Record)
    requires BatchesAreSettled(world)
    ensures BatchesAreSettled(world.(db := RecordExhausted(world.db, record), recorded := world.recorded + {record}))
  {
    RecordedMeansSettled(world.db, record);
    forall r | r in world.recorded && r.job.operation == DispatchBatch
      ensures !Admits(RecordExhausted(world.db, record), r)
    {
      RecordingKeepsSettled(world.db, record, r);
    }
  }

  /** Whatever happens, a batch job that was recorded stays without effect: the host's retry fences it out. */
  lemma {:induction false} RecordedBatchesStaySettled(db: Database, events: seq<Event>, remembers: bool)
    requires IsPlausible(db)
    ensures IsPlausible(Run(db, events, remembers).db) && BatchesAreSettled(Run(db, events, remembers))
  {
    if events != [] {
      var before := Run(db, events[..|events| - 1], remembers);
      var world := if remembers then before else before.(memo := {});
      RecordedBatchesStaySettled(db, events[..|events| - 1], remembers);
      EveryWorldIsTracked(db, events[..|events| - 1], remembers);
      NextIsPlausible(world, events[|events| - 1]);
      NextKeepsBatchesSettled(world, events[|events| - 1]);
    }
  }

  /**
   * A retry fences every exhaustion of the batch's own job, but none of its messages' jobs: such a job, had
   * it exhausted long before, still fails any message that is open or that this very retry reopens.
   */
  lemma RetryFencesBatchesOnly(db: Database, events: seq<Event>, batch: string, clock: int, record: Record)
    requires var world := Run(db, events, true);
             && record.job in world.failed && Some(record.exhaustedAt) == record.job.finishedOn
             && JobName(DispatchBatch, batch) in world.latest
    ensures var world := Run(db, events, true);
            var after := Next(world, HostRetries(batch, clock)).db;
            && (record.job.operation == DispatchBatch && record.job.target == batch ==> !Admits(after, record))
            && (record.job.operation == SendMessage ==>
                  (Admits(after, record) <==>
                     IsOpen(world.db, record.job.target) || Reopens(world.db, batch, record.job.target)))
  {
    var world := Run(db, events, true);
    EveryWorldIsTracked(db, events, true);
    if record.job.operation == DispatchBatch && record.job.target == batch {
      RetryFencesTheBatch(world, batch, clock, record);
    }
  }

  // ----- A discipline under which the memo is only a cache -----

  /**
   * A sweep comes to a memoised batch job only if it has not exhausted again since it was recorded, and the
   * host retries a batch only while none of the messages this reopens has a memoised job.
   */
  ghost predicate IsOrderly(world: World, event: Event) {
    match event
    case Visits(job, _, _) =>
      job.operation == DispatchBatch && job.id.Some? && job.id.value in world.memo && job.finishedOn.Some? ==>
        exists r :: r in world.recorded && r.job.id == job.id && job.finishedOn.value <= r.exhaustedAt
    case HostRetries(batch, _) =>
      forall m :: Reopens(world.db, batch, m) ==> JobName(SendMessage, m) !in world.memo
    case _ => true
  }

  ghost predicate IsOrderlyUpTo(db: Database, events: seq<Event>, n: nat)
    requires n <= |events|
  {
    forall k :: 0 <= k < n ==> IsOrderly(Run(db, events[..k], true), events[k])
  }

  ghost predicate MemoisedMessagesAreClosed(world: World) {
    forall m :: JobName(SendMessage, m) in world.memo ==> !IsOpen(world.db, m)
  }

  /** Only a retry opens a message again. */
  lemma OnlyRetriesOpen(world: World, event: Event, message: string)
    requires IsTracked(world)
    requires !IsOpen(world.db, message) && IsOpen(Next(world, event).db, message)
    ensures event.HostRetries? && Reopens(world.db, event.batch, message)
  {
    if event.Visits? && event.job in world.failed {
      VisitRecordsAtMostItsJob(world, event.job, event.now, event.written);
    }
  }

  /** An id enters the memo with a call that leaves its message closed. */
  lemma MemoisedWhenClosed(world: World, event: Event, message: string)
    requires IsTracked(world) && JobName(SendMessage, message) !in world.memo
    requires JobName(SendMessage, message) in Next(world, event).memo
    ensures !IsOpen(Next(world, event).db, message)
  {
    if event.Visits? && event.job in world.failed {
      VisitRecordsAtMostItsJob(world, event.job, event.now, event.written);
    }
    JobNamesDiffer(event.job.operation, event.job.target, SendMessage, message);
  }

  lemma NextKeepsMessagesClosed(world: World, event: Event)
    requires IsTracked(world) && MemoisedMessagesAreClosed(world) && IsOrderly(world, event)
    ensures MemoisedMessagesAreClosed(Next(world, event))
  {
    var after := Next(world, event);
    forall m | JobName(SendMessage, m) in after.memo ensures !IsOpen(after.db, m) {
      if JobName(SendMessage, m) !in world.memo {
        MemoisedWhenClosed(world, event, m);
      } else if IsOpen(after.db, m) {
        OnlyRetriesOpen(world, event, m);
      }
    }
  }

  lemma {:induction false} MessagesStayClosed(db: Database, events: seq<Event>, n: nat)
    requires n <= |events| && IsOrderlyUpTo(db, events, n)
    ensures MemoisedMessagesAreClosed(Run(db, events[..n], true))
  {
    if n > 0 {
      assert events[..n][..n - 1] == events[..n - 1];
      MessagesStayClosed(db, events, n - 1);
      EveryWorldIsTracked(db, events[..n - 1], true);
      NextKeepsMessagesClosed(Run(db, events[..n - 1], true), events[n - 1]);
    }
  }

  lemma OrderlySkipsNothingAdmitted(world: World, event: Event)
    requires IsTracked(world) && BatchesAreSettled(world) && MemoisedMessagesAreClosed(world)
    requires IsOrderly(world, event)
    ensures !SkipsAnAdmitted(world, event)
  {
    if event.Visits? && event.job in world.failed && event.job.id.value in world.memo {
      var job := event.job;
      if job.operation == DispatchBatch {
        var r :| r in world.recorded && r.job.id == job.id && job.finishedOn.value <= r.exhaustedAt;
        assert r.job in world.failed;
        JobNamesDiffer(r.job.operation, r.job.target, job.operation, job.target);
        assert !Admits(world.db, r);
      }
    }
  }

  /** Under every orderly schedule the memo is only a cache: nobody could tell from the database that it exists. */
  lemma MemoIsOnlyACache(db: Database, events: seq<Event>)
    requires IsPlausible(db) && IsOrderlyUpTo(db, events, |events|)
    ensures forall n :: 0 <= n <= |events| ==> Agrees(db, events[..n])
  {
    forall n | 0 <= n < |events| ensures !SkipsAnAdmitted(Run(db, events[..n], true), events[n]) {
      EveryWorldIsTracked(db, events[..n], true);
      RecordedBatchesStaySettled(db, events[..n], true);
      MessagesStayClosed(db, events, n);
      assert IsOrderly(Run(db, events[..n], true), events[n]);
      OrderlySkipsNothingAdmitted(Run(db, events[..n], true), events[n]);
    }
    MemoIsHarmlessExactly(db, events);
  }
}
