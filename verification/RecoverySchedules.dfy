/** How a whole sweep fits into a schedule of the recovery process, and two schedules in which the memo shows. */
module RecoverySchedules {
  import opened Basics
  import opened RecoverySweep
  import opened RecoverySweepProofs
  import opened RecoveryDatabase
  import opened RecoveryMemo

  // ----- A sweep is a schedule of visits -----

  ghost predicate IsSweeping(events: seq<Event>) {
    forall e :: e in events ==> e.Visits? || e.Forgets?
  }

  /** The schedule takes the process from `world` to where `after` ends, given that the sweep stood at `before`. */
  ghost predicate Realises(world: World, events: seq<Event>, before: Sweep, after: Sweep) {
    var end := From(world, events, true);
    && IsSweeping(events)
    && before.log <= after.log
    && end.memo == after.memo && end.failed == world.failed
    && end.db == ApplyLog(world.db, after.log[|before.log|..])
  }

  lemma FromOneMore(world: World, events: seq<Event>, event: Event)
    ensures From(world, events + [event], true) == Next(From(world, events, true), event)
  {
    assert (events + [event])[..|events|] == events;
  }

  /** One visit, seen from within a sweep and on its own. */
  lemma VisitIsLocal(sweep: Sweep, job: SendJob, now: int, accepts: nat -> bool)
    requires sweep.end == Going
    ensures var alone := Visit(Sweep(sweep.memo, [], Going), Some(job), now, _ => accepts(|sweep.log|));
            var within := Visit(sweep, Some(job), now, accepts);
            within.memo == alone.memo && within.log == sweep.log + alone.log
  {
    assert sweep.log + [] == sweep.log;
  }

  lemma VisitIsASchedule(
    world: World, events: seq<Event>, before: Sweep, sweep: Sweep, entry: Listed, now: int, accepts: nat -> bool)
    returns (more: seq<Event>)
    requires Realises(world, events, before, sweep)
    requires entry.Some? ==> entry.value in world.failed
    ensures Realises(world, more, before, Visit(sweep, entry, now, accepts))
  {
    more := events;
    if sweep.end == Going && entry.Some? {
      var event := Visits(entry.value, now, accepts(|sweep.log|));
      var alone := Visit(Sweep(sweep.memo, [], Going), entry, now, _ => accepts(|sweep.log|));
      var done := sweep.log[|before.log|..];
      more := events + [event];
      FromOneMore(world, events, event);
      VisitIsLocal(sweep, entry.value, now, accepts);
      ApplyLogInTwo(world.db, done, alone.log);
      assert (sweep.log + alone.log)[|before.log|..] == done + alone.log;
    }
  }

  lemma {:induction false} PageIsASchedule(
    world: World, before: Sweep, page: seq<Listed>, now: int, accepts: nat -> bool) returns (events: seq<Event>)
    requires before.memo == world.memo
    requires forall entry :: entry in page && entry.Some? ==> entry.value in world.failed
    ensures Realises(world, events, before, VisitAll(before, page, now, accepts))
  {
    if page == [] {
      events := [];
      assert before.log[|before.log|..] == [];
    } else {
      var front := page[..|page| - 1];
      var earlier := PageIsASchedule(world, before, front, now, accepts);
      events := VisitIsASchedule(
        world, earlier, before, VisitAll(before, front, now, accepts), page[|page| - 1], now, accepts);
    }
  }

  lemma {:induction false} FromInTwo(world: World, a: seq<Event>, b: seq<Event>)
    ensures From(world, a + b, true) == From(From(world, a, true), b, true)
  {
    if b == [] {
      assert a + b == a;
    } else {
      assert a + b == (a + b[..|b| - 1]) + [b[|b| - 1]];
      FromOneMore(world, a + b[..|b| - 1], b[|b| - 1]);
      FromInTwo(world, a, b[..|b| - 1]);
    }
  }

  lemma SuffixInTwo<T>(a: seq<T>, b: seq<T>, c: seq<T>)
    requires a <= b <= c
    ensures a <= c && c[|a|..] == b[|a|..] + c[|b|..]
  {
  }

  lemma RealisesInTwo(world: World, a: seq<Event>, b: seq<Event>, before: Sweep, between: Sweep, after: Sweep)
    requires Realises(world, a, before, between) && Realises(From(world, a, true), b, between, after)
    ensures Realises(world, a + b, before, after)
  {
    FromInTwo(world, a, b);
    SuffixInTwo(before.log, between.log, after.log);
    ApplyLogInTwo(world.db, between.log[|before.log|..], after.log[|between.log|..]);
  }

  /** The clearing of an outgrown memo after a page. */
  lemma ClearingIsASchedule(world: World, events: seq<Event>, before: Sweep, sweep: Sweep) returns (more: seq<Event>)
    requires Realises(world, events, before, sweep)
    ensures Realises(world, more, before, AfterPage(sweep))
  {
    more := events;
    if sweep.end == Going && |sweep.memo| > MEMO_LIMIT {
      more := events + [Forgets];
      FromOneMore(world, events, Forgets);
    }
  }

  /**
   * What a sweep does to memo and database is what some schedule of visits and clearings does, so whatever
   * holds of every schedule holds with whole sweeps in it.
   */
  lemma {:induction false} SweepIsASchedule(
    world: World, sweep: Sweep, lists: seq<seq<Listed>>, k: nat, now: int, accepts: nat -> bool)
    returns (events: seq<Event>)
    requires lists != [] && sweep.memo == world.memo
    requires forall job :: IsListed(lists, job) ==> job in world.failed
    ensures Realises(world, events, sweep, SweepFrom(sweep, lists, k, now, accepts))
    decreases Effort(lists, k)
  {
    var list := ListAt(lists, k);
    var page := PageOf(list, k * PAGE_SIZE);
    if page == [] {
      events := [];
      assert sweep.log[|sweep.log|..] == [];
    } else {
      PageIsListed(lists, k);
      EffortDrops(lists, k);
      var after := VisitAll(sweep, page, now, accepts);
      events := PageIsASchedule(world, sweep, page, now, accepts);
      if after.end == Going {
        events := ClearingIsASchedule(world, events, sweep, after);
        var rest := SweepIsASchedule(From(world, events, true), AfterPage(after), lists, k + 1, now, accepts);
        RealisesInTwo(world, events, rest, sweep, AfterPage(after), SweepFrom(sweep, lists, k, now, accepts));
        events := events + rest;
      }
    }
  }

  // ----- Two schedules in which the memo shows -----

  lemma RunOneMore(db: Database, events: seq<Event>, event: Event, remembers: bool)
    ensures var before := Run(db, events, remembers);
            Run(db, events + [event], remembers) == Next(if remembers then before else before.(memo := {}), event)
  {
    assert (events + [event])[..|events|] == events;
  }

  function BatchJob(at: int): SendJob {
    SendJob(Some(JobName(DispatchBatch, "b")), DispatchBatch, "b", None, 1, Some(at))
  }

  function MessageJob(at: int): SendJob {
    SendJob(Some(JobName(SendMessage, "m")), SendMessage, "m", None, 1, Some(at))
  }

  /** One batch with one untried message in this status, and the batch's fence. */
  function Rows(status: Status, fence: Option<int>): Database {
    Database(map["b" := Batch(false, fence)], map["m" := Message("b", status, 0)])
  }

  lemma RowsUnderBookkeeping(status: Status, fence: Option<int>, at: int)
    requires status == Queued || status == Undispatched
    ensures RecordExhausted(Rows(status, fence), Record(BatchJob(at), at)) ==
            if fence.None? || fence.value <= at then Rows(Undispatched, fence) else Rows(status, fence)
    ensures RecordExhausted(Rows(status, fence), Record(MessageJob(at), at)) ==
            if status == Queued then Rows(Done, fence) else Rows(status, fence)
    ensures forall clock :: clock > at ==> RetryBatch(Rows(status, fence), "b", at, clock) == Rows(Queued, Some(clock))
  {
    var db := Rows(status, fence);
    BookkeepingExactly(db, Record(BatchJob(at), at));
    BookkeepingExactly(db, Record(MessageJob(at), at));
    forall clock | clock > at ensures RetryBatch(db, "b", at, clock) == Rows(Queued, Some(clock)) {
      RetryExactly(db, "b", at, clock);
    }
  }

  lemma FirstFailure(status: Status, fence: Option<int>, memo: set<string>, failed: set<SendJob>,
    latest: map<string, int>, recorded: set<Record>, job: SendJob)
    requires job.id == Some(JobName(job.operation, job.target)) && job.finishedOn.Some? && job.attempts == None
    requires job.attemptsMade == 1 && (job.id.value in latest ==> latest[job.id.value] <= job.finishedOn.value)
    ensures var world := World(Rows(status, fence), memo, failed, latest, recorded);
            Next(world, Fails(job)) ==
            world.(failed := failed + {job}, latest := latest[job.id.value := job.finishedOn.value])
  {
  }

  /** A sweep comes to a failed job, with the memo or without. */
  lemma VisitExample(db: Database, events: seq<Event>, job: SendJob, now: int, remembers: bool)
    requires job in Run(db, events, remembers).failed && Qualifies(job, now)
    ensures var before := Run(db, events, remembers);
            var after := Run(db, events + [Visits(job, now, true)], remembers);
            && after.db == (if remembers && job.id.value in before.memo then before.db
                            else RecordExhausted(before.db, Record(job, ExhaustedAt(job, now))))
            && (remembers ==> after.memo == before.memo + {job.id.value})
            && after.failed == before.failed && after.latest == before.latest
  {
    var before := Run(db, events, remembers);
    EveryWorldIsTracked(db, events, remembers);
    RunOneMore(db, events, Visits(job, now, true), remembers);
    VisitRecordsAtMostItsJob(if remembers then before else before.(memo := {}), job, now, true);
  }

  const NEW_BATCH := Rows(Queued, None)
  const BATCH_ID := JobName(DispatchBatch, "b")
  const FIRST_SWEEP: seq<Event> := [] + [Fails(BatchJob(100))] + [Visits(BatchJob(100), 110, true)]
  const RETRIED: seq<Event> := FIRST_SWEEP + [HostRetries("b", 200)]

  lemma ExampleFirstSweep(remembers: bool)
    ensures var world := Run(NEW_BATCH, FIRST_SWEEP, remembers);
            && world.db == Rows(Undispatched, None) && world.latest == map[BATCH_ID := 100]
            && (remembers ==> world.memo == {BATCH_ID})
  {
    RunOneMore(NEW_BATCH, [], Fails(BatchJob(100)), remembers);
    FirstFailure(Queued, None, {}, {}, map[], {}, BatchJob(100));
    VisitExample(NEW_BATCH, [] + [Fails(BatchJob(100))], BatchJob(100), 110, remembers);
    RowsUnderBookkeeping(Queued, None, 100);
  }

  lemma ExampleRetried(remembers: bool)
    ensures var world := Run(NEW_BATCH, RETRIED, remembers);
            && world.db == Rows(Queued, Some(200)) && world.latest == map[BATCH_ID := 100]
            && (remembers ==> world.memo == {BATCH_ID})
  {
    ExampleFirstSweep(remembers);
    RunOneMore(NEW_BATCH, FIRST_SWEEP, HostRetries("b", 200), remembers);
    RowsUnderBookkeeping(Undispatched, None, 100);
  }

  /**
   * A batch job that the host retries keeps its id. If it exhausts again, the sweep passes over it, and its
   * message stays in a queue that nobody serves, where a process without memo would report it failed.
   */
  lemma SecondExhaustionExample()
    ensures var events := RETRIED + [Fails(BatchJob(300))] + [Visits(BatchJob(300), 310, true)];
            && Run(NEW_BATCH, events, true).db == Rows(Queued, Some(200))
            && Run(NEW_BATCH, events, false).db == Rows(Undispatched, Some(200))
  {
    SecondExhaustion(true);
    SecondExhaustion(false);
  }

  lemma SecondExhaustion(remembers: bool)
    ensures Run(NEW_BATCH, RETRIED + [Fails(BatchJob(300))] + [Visits(BatchJob(300), 310, true)], remembers).db ==
            Rows(if remembers then Queued else Undispatched, Some(200))
  {
    var world := Run(NEW_BATCH, RETRIED, remembers);
    ExampleRetried(remembers);
    RunOneMore(NEW_BATCH, RETRIED, Fails(BatchJob(300)), remembers);
    var memo := if remembers then world.memo else {};
    FirstFailure(Queued, Some(200), memo, world.failed, world.latest, world.recorded, BatchJob(300));
    VisitExample(NEW_BATCH, RETRIED + [Fails(BatchJob(300))], BatchJob(300), 310, remembers);
    RowsUnderBookkeeping(Queued, Some(200), 300);
  }

  const BOTH_FAILED: seq<Event> := [] + [Fails(MessageJob(100))] + [Fails(BatchJob(110))]
  const BOTH_SWEPT: seq<Event> :=
    BOTH_FAILED + [Visits(BatchJob(110), 120, true)] + [Visits(MessageJob(100), 120, true)]
  const RESTARTED: seq<Event> := BOTH_SWEPT + [HostRetries("b", 200)] + [Forgets]

  lemma ExampleBothSwept()
    ensures var world := Run(NEW_BATCH, BOTH_SWEPT, true);
            && world.db == Rows(Undispatched, None) && MessageJob(100) in world.failed
            && BATCH_ID in world.latest && world.latest[BATCH_ID] == 110
  {
    var first: seq<Event> := [] + [Fails(MessageJob(100))];
    RunOneMore(NEW_BATCH, [], Fails(MessageJob(100)), true);
    FirstFailure(Queued, None, {}, {}, map[], {}, MessageJob(100));
    var world := Run(NEW_BATCH, first, true);
    MessageIdIsNotTheBatchId();
    RunOneMore(NEW_BATCH, first, Fails(BatchJob(110)), true);
    FirstFailure(Queued, None, {}, world.failed, world.latest, {}, BatchJob(110));
    VisitExample(NEW_BATCH, BOTH_FAILED, BatchJob(110), 120, true);
    RowsUnderBookkeeping(Queued, None, 110);
    VisitExample(NEW_BATCH, BOTH_FAILED + [Visits(BatchJob(110), 120, true)], MessageJob(100), 120, true);
    RowsUnderBookkeeping(Undispatched, None, 100);
  }

  lemma MessageIdIsNotTheBatchId()
    ensures JobName(SendMessage, "m") != BATCH_ID
  {
    if JobName(SendMessage, "m") == BATCH_ID { JobNamesDiffer(SendMessage, "m", DispatchBatch, "b"); }
  }

  /**
   * The host retries a batch and the worker restarts: the sweep replays a message job that exhausted long
   * before the retry, and fails the message that the retry had just put back in the queue.
   */
  lemma StaleMessageExample()
    ensures Run(NEW_BATCH, RESTARTED, true).db == Rows(Queued, Some(200))
    ensures Run(NEW_BATCH, RESTARTED + [Visits(MessageJob(100), 210, true)], true).db == Rows(Done, Some(200))
  {
    ExampleBothSwept();
    var retry: seq<Event> := BOTH_SWEPT + [HostRetries("b", 200)];
    RunOneMore(NEW_BATCH, BOTH_SWEPT, HostRetries("b", 200), true);
    RowsUnderBookkeeping(Undispatched, None, 110);
    RunOneMore(NEW_BATCH, retry, Forgets, true);
    VisitExample(NEW_BATCH, RESTARTED, MessageJob(100), 210, true);
    RowsUnderBookkeeping(Queued, Some(200), 100);
  }
}
