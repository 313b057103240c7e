/**
 * The import job under at-least-once delivery: processParse and processValidation as sequences of atomic
 * steps on a revision-guarded store, any number of deliveries of one queue message interleaved, any of
 * them crashing at any point.
 */
module ImportJobs {
  import opened Basics

  datatype JobStatus =
    | Uploaded | Parsing | AwaitingMapping | Validating | Reviewing | Ready
    | Importing | Completed | Cancelled | Failed

  datatype Operation = Parse | Validate

  /**
   * The stored job. `config` is what findJob selects (source asset, headers, mapping), `rows` are its
   * import rows; timestamps and the ids of new rows are not modelled.
   */
  datatype Job<C, R> = Job(status: JobStatus, revision: int, config: C, rows: R, failure: Option<string>)

  /** How a delivery's work ends: with what completeParse or completeValidation stores, or a permanent failure. */
  datatype Verdict<C, R> = Finish(status: JobStatus, config: C, rows: R) | Fail(code: string)

  /**
   * The work between the database steps, a function of what the delivery read: reading and parsing the
   * stored file, or validating the rows against the guest list. `mappingError` is the permanent failure
   * that processValidation can raise before it claims the job.
   */
  datatype Work<!C, !R> = Work(judge: (C, R) -> Verdict<C, R>, mappingError: C -> Option<string>)

  datatype Reason = NotFound | StaleRevision | AlreadyProcessed

  datatype Outcome = Finished | FailedPermanently | Skipped(reason: Reason)

  /** Where a delivery is; each step reads or writes the store once. */
  datatype Delivery<C, R> =
    | Start
    | Loaded(status: JobStatus, config: C)
    | Listed(status: JobStatus, config: C, rows: R)
    | Claimed(config: C, rows: R)
    | Failing(code: string)
    | Done(outcome: Outcome)
    | Crashed

  datatype System<C, R> = System(job: Option<Job<C, R>>, deliveries: seq<Delivery<C, R>>)

  /** The parameters of one queue message. */
  datatype Message = Message(operation: Operation, expectedRevision: int)

  // ----- The store's guarded writes -----

  function ClaimedStatus(operation: Operation): JobStatus {
    if operation == Parse then Parsing else Validating
  }

  predicate Claimable(operation: Operation, status: JobStatus) {
    if operation == Parse then status == Uploaded else status in {AwaitingMapping, Reviewing, Ready}
  }

  predicate Processable(operation: Operation, status: JobStatus) {
    Claimable(operation, status) || status == ClaimedStatus(operation)
  }

  predicate Terminal(status: JobStatus) {
    status in {Cancelled, Importing, Completed, Failed}
  }

  /** The job while somebody works on it. Starting to parse forgets an earlier failure. */
  function ClaimedJob<C, R>(job: Job<C, R>, operation: Operation): Job<C, R> {
    if job.status == ClaimedStatus(operation) then job
    else job.(status := ClaimedStatus(operation), failure := if operation == Parse then None else job.failure)
  }

  /** markParsing and markValidating. */
  function MarkClaimed<C, R>(job: Job<C, R>, message: Message): Option<Job<C, R>> {
    if job.revision == message.expectedRevision && Claimable(message.operation, job.status) then
      Some(ClaimedJob(job, message.operation))
    else None
  }

  /** completeParse and completeValidation. */
  function Complete<C, R>(job: Job<C, R>, message: Message, verdict: Verdict<C, R>): Option<Job<C, R>>
    requires verdict.Finish?
  {
    if job.revision == message.expectedRevision && job.status == ClaimedStatus(message.operation) then
      Some(Job(verdict.status, job.revision + 1, verdict.config, verdict.rows, None))
    else None
  }

  /** markFailed. */
  function MarkFailed<C, R>(job: Job<C, R>, message: Message, code: string): Job<C, R> {
    if job.revision == message.expectedRevision && !Terminal(job.status) then
      job.(status := Failed, revision := job.revision + 1, failure := Some(code))
    else job
  }

  // ----- One step of one delivery -----

  function SkipReason<C, R>(job: Option<Job<C, R>>, message: Message): Option<Reason> {
    if job.None? then Some(NotFound)
    else if job.value.revision != message.expectedRevision then Some(StaleRevision)
    else if Terminal(job.value.status) || !Processable(message.operation, job.value.status) then Some(AlreadyProcessed)
    else None
  }

  /**
   * A parse message is worked on exactly while the job is uploaded or being parsed, a validation message
   * exactly while it awaits its mapping, is being validated or has been, each at the message's revision.
   */
  lemma SkipReasonExactly<C, R>(job: Option<Job<C, R>>, message: Message)
    ensures SkipReason(job, message) ==
            if job.None? then Some(NotFound)
            else if job.value.revision != message.expectedRevision then Some(StaleRevision)
            else if message.operation == Parse then
              if job.value.status == Uploaded || job.value.status == Parsing then None else Some(AlreadyProcessed)
            else if job.value.status == AwaitingMapping || job.value.status == Validating ||
                    job.value.status == Reviewing || job.value.status == Ready
            then None
            else Some(AlreadyProcessed)
  {
  }

  /** The store and the delivery after its next step. */
  function Advance<C, R>(
    job: Option<Job<C, R>>, delivery: Delivery<C, R>, message: Message, work: Work<C, R>)
    : (Option<Job<C, R>>, Delivery<C, R>)
  {
    match delivery
    case Start =>
      var skip := SkipReason(job, message);
      if skip.Some? then (job, Done(Skipped(skip.value))) else (job, Loaded(job.value.status, job.value.config))
    case Loaded(status, config) =>
      if job.None? then (job, Done(Skipped(StaleRevision)))
      else if message.operation == Validate then (job, Listed(status, config, job.value.rows))
      else Claim(job.value, status, config, job.value.rows, message)
    case Listed(status, config, rows) =>
      if job.None? then (job, Done(Skipped(StaleRevision)))
      else if work.mappingError(config).Some? then (job, Failing(work.mappingError(config).value))
      else Claim(job.value, status, config, rows, message)
    case Claimed(config, rows) =>
      var verdict := work.judge(config, rows);
      if verdict.Fail? then (job, Failing(verdict.code))
      else
        var completed := if job.Some? then Complete(job.value, message, verdict) else None;
        if completed.Some? then (completed, Done(Finished)) else (job, Done(Skipped(StaleRevision)))
    case Failing(code) =>
      ((if job.Some? then Some(MarkFailed(job.value, message, code)) else None), Done(FailedPermanently))
    case Done(_) => (job, delivery)
    case Crashed => (job, delivery)
  }

  function Claim<C, R>(
    job: Job<C, R>, status: JobStatus, config: C, rows: R, message: Message): (Option<Job<C, R>>, Delivery<C, R>)
  {
    if status == ClaimedStatus(message.operation) then (Some(job), Claimed(config, rows))
    else
      var marked := MarkClaimed(job, message);
      if marked.Some? then (marked, Claimed(config, rows)) else (Some(job), Done(Skipped(StaleRevision)))
  }

  // ----- Schedules -----

  /**
   * The queue delivers the message (again), a delivery takes its next step, or it crashes where it is; or
   * the API changes the import: the host edits, confirms or cancels it, which raises its revision, or the
   * API marks it failed at its revision because the queue seemed unavailable.
   */
  datatype Event<C, R> = Deliver | Step(delivery: nat) | Crash(delivery: nat) | Changed(edited: Job<C, R>)

  predicate IsChange<C, R>(job: Option<Job<C, R>>, event: Event<C, R>) {
    event.Changed? && job.Some? &&
    (event.edited.revision > job.value.revision ||
     (event.edited.revision == job.value.revision && event.edited.status == Failed))
  }

  function Next<C, R>(system: System<C, R>, event: Event<C, R>, message: Message, work: Work<C, R>): System<C, R> {
    match event
    case Deliver => system.(deliveries := system.deliveries + [Start])
    case Step(i) =>
      if i < |system.deliveries| then
        var (job, delivery) := Advance(system.job, system.deliveries[i], message, work);
        System(job, system.deliveries[i := delivery])
      else system
    case Crash(i) =>
      if i < |system.deliveries| then system.(deliveries := system.deliveries[i := Crashed]) else system
    case Changed(edited) => if IsChange(system.job, event) then system.(job := Some(edited)) else system
  }

  function Run<C, R>(
    job: Option<Job<C, R>>, events: seq<Event<C, R>>, message: Message, work: Work<C, R>): System<C, R>
  {
    if events == [] then System(job, [])
    else Next(Run(job, events[..|events| - 1], message, work), events[|events| - 1], message, work)
  }

  /** The job as the API last left it, if the API changed it at all. */
  function LastChange<C, R>(
    job: Option<Job<C, R>>, events: seq<Event<C, R>>, message: Message, work: Work<C, R>): Option<Job<C, R>>
  {
    if events == [] then None
    else
      var front, last := events[..|events| - 1], events[|events| - 1];
      if IsChange(Run(job, front, message, work).job, last) then Some(last.edited)
      else LastChange(job, front, message, work)
  }

  // ----- One uninterrupted delivery -----

  /** What the job becomes when a single delivery runs from start to end. */
  function Settled<C, R>(job: Job<C, R>, message: Message, work: Work<C, R>): Job<C, R> {
    if SkipReason(Some(job), message).Some? then job
    else if message.operation == Validate && work.mappingError(job.config).Some? then
      MarkFailed(job, message, work.mappingError(job.config).value)
    else
      var verdict := work.judge(job.config, job.rows);
      if verdict.Fail? then MarkFailed(job, message, verdict.code)
      else Job(verdict.status, job.revision + 1, verdict.config, verdict.rows, None)
  }

  /** A delivery that takes `n` steps with nothing in between. */
  function AdvanceAlone<C, R>(
    job: Option<Job<C, R>>, delivery: Delivery<C, R>, message: Message, work: Work<C, R>, n: nat)
    : (Option<Job<C, R>>, Delivery<C, R>)
    decreases n
  {
    if n == 0 then (job, delivery)
    else
      var (job', delivery') := Advance(job, delivery, message, work);
      AdvanceAlone(job', delivery', message, work, n - 1)
  }

  /** Five steps always bring an uninterrupted delivery to its end, and leave the settled job. */
  lemma UninterruptedDeliverySettles<C, R>(job: Job<C, R>, message: Message, work: Work<C, R>)
    ensures var (after, delivery) := AdvanceAlone(Some(job), Start, message, work, 5);
            && after == Some(Settled(job, message, work))
            && delivery == Done(
                 if SkipReason(Some(job), message).Some? then Skipped(SkipReason(Some(job), message).value)
                 else if (message.operation == Validate && work.mappingError(job.config).Some?) ||
                         work.judge(job.config, job.rows).Fail?
                 then FailedPermanently
                 else Finished)
  {
    var (job1, d1) := Advance(Some(job), Start, message, work);
    var (job2, d2) := Advance(job1, d1, message, work);
    var (job3, d3) := Advance(job2, d2, message, work);
    var (job4, d4) := Advance(job3, d3, message, work);
    var (job5, d5) := Advance(job4, d4, message, work);
    assert AdvanceAlone(job5, d5, message, work, 0) == (job5, d5);
    assert AdvanceAlone(job4, d4, message, work, 1) == (job5, d5);
    assert AdvanceAlone(job3, d3, message, work, 2) == (job5, d5);
    assert AdvanceAlone(job2, d2, message, work, 3) == (job5, d5);
    assert AdvanceAlone(job1, d1, message, work, 4) == (job5, d5);
  }

  /** A delivery reports that it finished exactly when its own completion took effect; otherwise it was too late. */
  lemma CompletionReportsExactly<C, R>(
    job: Option<Job<C, R>>, config: C, rows: R, message: Message, work: Work<C, R>)
    requires work.judge(config, rows).Finish?
    ensures var (after, delivery) := Advance(job, Claimed(config, rows), message, work);
            if job.Some? && job.value.revision == message.expectedRevision &&
               job.value.status == (if message.operation == Parse then Parsing else Validating)
            then delivery == Done(Finished) && after.Some? && after.value.revision == message.expectedRevision + 1
            else delivery == Done(Skipped(StaleRevision)) && after == job
  {
  }

  /** A delivery that finds the job no longer claimable, though it was when loaded, gives up as stale. */
  lemma LateClaimsGiveUp<C, R>(
    job: Job<C, R>, status: JobStatus, config: C, rows: R, message: Message)
    requires Claimable(message.operation, status)
    ensures var (after, delivery) := Claim(job, status, config, rows, message);
            if job.revision == message.expectedRevision && Claimable(message.operation, job.status)
            then delivery == Claimed(config, rows)
            else delivery == Done(Skipped(StaleRevision)) && after == Some(job)
  {
  }

  /** Delivering a message and letting the delivery take five steps is a schedule that settles the job. */
  lemma OneDeliveryIsASchedule<C, R>(job: Job<C, R>, message: Message, work: Work<C, R>)
    ensures Run(Some(job), [] + [Deliver] + [Step(0)] + [Step(0)] + [Step(0)] + [Step(0)] + [Step(0)], message, work) ==
            System(Some(Settled(job, message, work)), [AdvanceAlone(Some(job), Start, message, work, 5).1])
  {
    var e0: seq<Event<C, R>> := [] + [Deliver];
    var e1 := e0 + [Step(0)];
    var e2 := e1 + [Step(0)];
    var e3 := e2 + [Step(0)];
    var e4 := e3 + [Step(0)];
    RunOneMore(Some(job), [], Deliver, message, work);
    assert Run(Some(job), e0, message, work) == System(Some(job), [Start]);
    StepsAlone(Some(job), e0, message, work);
    StepsAlone(Some(job), e1, message, work);
    StepsAlone(Some(job), e2, message, work);
    StepsAlone(Some(job), e3, message, work);
    StepsAlone(Some(job), e4, message, work);
    UninterruptedDeliverySettles(job, message, work);
    FiveSteps(Some(job), Start, message, work);
  }

  lemma RunOneMore<C, R>(
    job: Option<Job<C, R>>, events: seq<Event<C, R>>, event: Event<C, R>, message: Message, work: Work<C, R>)
    ensures Run(job, events + [event], message, work) == Next(Run(job, events, message, work), event, message, work)
  {
    assert (events + [event])[..|events|] == events;
  }

  lemma StepsAlone<C, R>(job: Option<Job<C, R>>, events: seq<Event<C, R>>, message: Message, work: Work<C, R>)
    requires |Run(job, events, message, work).deliveries| == 1
    ensures var before := Run(job, events, message, work);
            var (after, delivery) := Advance(before.job, before.deliveries[0], message, work);
            Run(job, events + [Step(0)], message, work) == System(after, [delivery])
  {
    RunOneMore(job, events, Step(0), message, work);
  }

  lemma FiveSteps<C, R>(
    job: Option<Job<C, R>>, delivery: Delivery<C, R>, message: Message, work: Work<C, R>)
    ensures var (j1, d1) := Advance(job, delivery, message, work);
            var (j2, d2) := Advance(j1, d1, message, work);
            var (j3, d3) := Advance(j2, d2, message, work);
            var (j4, d4) := Advance(j3, d3, message, work);
            AdvanceAlone(job, delivery, message, work, 5) == Advance(j4, d4, message, work)
  {
    var (j1, d1) := Advance(job, delivery, message, work);
    var (j2, d2) := Advance(j1, d1, message, work);
    var (j3, d3) := Advance(j2, d2, message, work);
    var (j4, d4) := Advance(j3, d3, message, work);
    var (j5, d5) := Advance(j4, d4, message, work);
    assert AdvanceAlone(j5, d5, message, work, 0) == (j5, d5);
    assert AdvanceAlone(j4, d4, message, work, 1) == (j5, d5);
    assert AdvanceAlone(j3, d3, message, work, 2) == (j5, d5);
    assert AdvanceAlone(j2, d2, message, work, 3) == (j5, d5);
    assert AdvanceAlone(j1, d1, message, work, 4) == (j5, d5);
  }

  // ----- What every schedule keeps -----

  /** The job is still as it was read, or being worked on, or settled for good. */
  ghost predicate JobIsOnItsWay<C, R>(origin: Job<C, R>, job: Option<Job<C, R>>, message: Message, work: Work<C, R>) {
    job == Some(origin) || job == Some(ClaimedJob(origin, message.operation)) ||
    job == Some(Settled(origin, message, work))
  }

  ghost predicate StillOpen<C, R>(job: Option<Job<C, R>>, message: Message) {
    job.Some? && job.value.revision == message.expectedRevision
  }

  /** As long as the job is open, what a delivery has read and concluded is what a lone delivery would have. */
  ghost predicate DeliveryIsOnItsWay<C, R>(
    origin: Job<C, R>, job: Option<Job<C, R>>, delivery: Delivery<C, R>, message: Message, work: Work<C, R>)
  {
    var claimed := ClaimedJob(origin, message.operation);
    match delivery
    case Start => true
    case Loaded(status, config) =>
      config == origin.config && (StillOpen(job, message) ==>
        status == origin.status || (status == claimed.status && job == Some(claimed)))
    case Listed(status, config, rows) =>
      message.operation == Validate && config == origin.config && (StillOpen(job, message) ==>
        rows == origin.rows && (status == origin.status || (status == claimed.status && job == Some(claimed))))
    case Claimed(config, rows) =>
      StillOpen(job, message) ==>
        config == origin.config && rows == origin.rows && job == Some(claimed) &&
        (message.operation == Validate ==> work.mappingError(config).None?)
    case Failing(code) =>
      StillOpen(job, message) ==> Settled(origin, message, work) == MarkFailed(origin, message, code)
    case Done(outcome) => outcome.Skipped? || job == Some(Settled(origin, message, work))
    case Crashed => true
  }

  ghost predicate OnItsWay<C, R>(origin: Job<C, R>, system: System<C, R>, message: Message, work: Work<C, R>) {
    && JobIsOnItsWay(origin, system.job, message, work)
    && forall d :: d in system.deliveries ==> DeliveryIsOnItsWay(origin, system.job, d, message, work)
  }

  /** A step of one delivery keeps the job, that delivery and every other delivery on their way. */
  lemma AdvanceStaysOnItsWay<C, R>(
    origin: Job<C, R>, job: Option<Job<C, R>>, delivery: Delivery<C, R>, message: Message, work: Work<C, R>)
    requires SkipReason(Some(origin), message).None?
    requires JobIsOnItsWay(origin, job, message, work)
    requires DeliveryIsOnItsWay(origin, job, delivery, message, work)
    ensures var (job', delivery') := Advance(job, delivery, message, work);
            && JobIsOnItsWay(origin, job', message, work)
            && DeliveryIsOnItsWay(origin, job', delivery', message, work)
            && (job' == job || job' == Some(ClaimedJob(origin, message.operation)) ||
                job' == Some(Settled(origin, message, work)))
            && (!StillOpen(job, message) ==> job' == job)
  {
  }

  lemma OthersStayOnTheirWay<C, R>(
    origin: Job<C, R>, job: Option<Job<C, R>>, job': Option<Job<C, R>>, other: Delivery<C, R>,
    message: Message, work: Work<C, R>)
    requires SkipReason(Some(origin), message).None?
    requires JobIsOnItsWay(origin, job, message, work)
    requires DeliveryIsOnItsWay(origin, job, other, message, work)
    requires job' == job || job' == Some(ClaimedJob(origin, message.operation)) ||
             job' == Some(Settled(origin, message, work))
    requires !StillOpen(job, message) ==> job' == job
    ensures DeliveryIsOnItsWay(origin, job', other, message, work)
  {
  }

  lemma {:induction false} EveryScheduleStaysOnItsWay<C, R>(
    origin: Job<C, R>, events: seq<Event<C, R>>, message: Message, work: Work<C, R>)
    requires SkipReason(Some(origin), message).None? && LastChange(Some(origin), events, message, work).None?
    ensures OnItsWay(origin, Run(Some(origin), events, message, work), message, work)
  {
    if events != [] {
      var before := Run(Some(origin), events[..|events| - 1], message, work);
      EveryScheduleStaysOnItsWay(origin, events[..|events| - 1], message, work);
      match events[|events| - 1]
      case Deliver =>
      case Crash(_) =>
      case Changed(_) =>
      case Step(i) =>
        if i < |before.deliveries| {
          assert before.deliveries[i] in before.deliveries;
          AdvanceStaysOnItsWay(origin, before.job, before.deliveries[i], message, work);
          var job' := Advance(before.job, before.deliveries[i], message, work).0;
          forall d | d in before.deliveries ensures DeliveryIsOnItsWay(origin, job', d, message, work) {
            OthersStayOnTheirWay(origin, before.job, job', d, message, work);
          }
        }
    }
  }

  predicate IsClosed<C, R>(job: Job<C, R>, message: Message) {
    job.revision > message.expectedRevision || (job.revision == message.expectedRevision && Terminal(job.status))
  }

  lemma OnlyOpenJobsAreWritten<C, R>(job: Job<C, R>, delivery: Delivery<C, R>, message: Message, work: Work<C, R>)
    ensures var after := Advance(Some(job), delivery, message, work).0;
            after.Some? && after.value.revision >= job.revision && (IsClosed(job, message) ==> after == Some(job))
  {
  }

  /** Whatever a delivery had read or claimed before, once the API has changed the job it writes nothing over it. */
  lemma {:induction false} ChangesAreNeverOverwritten<C, R>(
    job: Option<Job<C, R>>, events: seq<Event<C, R>>, message: Message, work: Work<C, R>)
    requires job.Some? && job.value.revision >= message.expectedRevision
    ensures var after, change := Run(job, events, message, work).job, LastChange(job, events, message, work);
            && after.Some? && after.value.revision >= message.expectedRevision
            && (change.Some? ==> after == change && IsClosed(after.value, message))
  {
    if events != [] {
      var front, last := events[..|events| - 1], events[|events| - 1];
      ChangesAreNeverOverwritten(job, front, message, work);
      var before := Run(job, front, message, work);
      if last.Step? && last.delivery < |before.deliveries| {
        OnlyOpenJobsAreWritten(before.job.value, before.deliveries[last.delivery], message, work);
      }
    }
  }

  /**
   * However often the message is delivered, however the deliveries interleave and crash: as long as the API
   * does not change it, the job is at any time untouched, claimed, or exactly as one uninterrupted delivery
   * would have left it, and it is the latter as soon as any delivery reports that it finished or failed. If
   * the API changes it, even between two steps of a delivery, it stays as the API last left it.
   */
  lemma RedeliveryIsHarmless<C, R>(origin: Job<C, R>, events: seq<Event<C, R>>, message: Message, work: Work<C, R>)
    requires SkipReason(Some(origin), message).None?
    ensures var system := Run(Some(origin), events, message, work);
            var change := LastChange(Some(origin), events, message, work);
            if change.Some? then system.job == change
            else
              && JobIsOnItsWay(origin, system.job, message, work)
              && ((exists d :: d in system.deliveries && d.Done? && !d.outcome.Skipped?) ==>
                    system.job == Some(Settled(origin, message, work)))
  {
    ChangesAreNeverOverwritten(Some(origin), events, message, work);
    if LastChange(Some(origin), events, message, work).None? {
      EveryScheduleStaysOnItsWay(origin, events, message, work);
    }
  }

  lemma SettlingIsIdempotent<C, R>(origin: Job<C, R>, job: Job<C, R>, message: Message, work: Work<C, R>)
    requires SkipReason(Some(origin), message).None?
    requires JobIsOnItsWay(origin, Some(job), message, work)
    ensures Settled(job, message, work) == Settled(origin, message, work)
  {
    if job == Settled(origin, message, work) {
      assert job.revision == message.expectedRevision + 1;
    } else if job != origin {
      assert job == ClaimedJob(origin, message.operation);
      assert SkipReason(Some(job), message).None?;
    }
  }

  /** After any schedule, one more uninterrupted delivery settles the job, or leaves it as the API changed it. */
  lemma OneMoreDeliverySettles<C, R>(origin: Job<C, R>, events: seq<Event<C, R>>, message: Message, work: Work<C, R>)
    requires SkipReason(Some(origin), message).None?
    ensures var job := Run(Some(origin), events, message, work).job;
            var change := LastChange(Some(origin), events, message, work);
            AdvanceAlone(job, Start, message, work, 5).0 ==
            if change.Some? then change else Some(Settled(origin, message, work))
  {
    ChangesAreNeverOverwritten(Some(origin), events, message, work);
    var job := Run(Some(origin), events, message, work).job.value;
    UninterruptedDeliverySettles(job, message, work);
    if LastChange(Some(origin), events, message, work).None? {
      EveryScheduleStaysOnItsWay(origin, events, message, work);
      SettlingIsIdempotent(origin, job, message, work);
    }
  }

  ghost predicate NeverStarted<C, R>(delivery: Delivery<C, R>) {
    delivery == Start || delivery == Crashed || (delivery.Done? && delivery.outcome.Skipped?)
  }

  /**
   * A message with a stale revision, or for a job past its stage, never changes anything, and keeps not
   * doing so when the API changes the job.
   */
  lemma {:induction false} SkippedMessagesChangeNothing<C, R>(
    job: Option<Job<C, R>>, events: seq<Event<C, R>>, message: Message, work: Work<C, R>)
    requires SkipReason(job, message).Some?
    requires job.None? || job.value.revision >= message.expectedRevision ||
             LastChange(job, events, message, work).None?
    ensures var system := Run(job, events, message, work);
            var change := LastChange(job, events, message, work);
            && system.job == (if change.Some? then change else job)
            && (change.Some? ==> job.Some?)
            && SkipReason(system.job, message).Some?
            && (forall d :: d in system.deliveries ==> NeverStarted(d))
            && (forall reason :: Done(Skipped(reason)) in system.deliveries && change.None? ==>
                  reason == SkipReason(job, message).value)
  {
    if events != [] {
      var before := Run(job, events[..|events| - 1], message, work);
      SkippedMessagesChangeNothing(job, events[..|events| - 1], message, work);
      match events[|events| - 1]
      case Deliver =>
      case Crash(_) =>
      case Changed(_) =>
        if IsChange(before.job, events[|events| - 1]) {
          ChangesAreNeverOverwritten(job, events, message, work);
          assert SkipReason(Run(job, events, message, work).job, message).Some?;
        }
      case Step(i) =>
        if i < |before.deliveries| {
          assert before.deliveries[i] in before.deliveries;
          assert NeverStarted(Advance(before.job, before.deliveries[i], message, work).1);
        }
    }
  }

  // ----- The processor's own code -----

  /** The stored job, behind the repository's guarded writes. */
  class ImportStore<C, R> {
    var job: Option<Job<C, R>>

    constructor (job: Option<Job<C, R>>)
      ensures this.job == job
    {
      this.job := job;
    }

    method MarkClaimedJob(message: Message) returns (transitioned: bool)
      modifies this
      ensures transitioned <==>
                && old(job).Some? && old(job).value.revision == message.expectedRevision
                && if message.operation == Parse then old(job).value.status == Uploaded
                   else old(job).value.status in {AwaitingMapping, Reviewing, Ready}
      ensures job ==
              if !transitioned then old(job)
              else if message.operation == Parse then Some(old(job).value.(status := Parsing, failure := None))
              else Some(old(job).value.(status := Validating))
      ensures transitioned ==> job == MarkClaimed(old(job).value, message)
    {
      if job.None? { return false; }
      var marked := MarkClaimed(job.value, message);
      if marked.None? { return false; }
      job := marked;
      transitioned := true;
    }

    method CompleteJob(message: Message, verdict: Verdict<C, R>) returns (completed: bool)
      requires verdict.Finish?
      modifies this
      ensures completed <==>
                && old(job).Some? && old(job).value.revision == message.expectedRevision
                && old(job).value.status == if message.operation == Parse then Parsing else Validating
      ensures job ==
              if completed
              then Some(Job(verdict.status, message.expectedRevision + 1, verdict.config, verdict.rows, None))
              else old(job)
    {
      if job.None? { return false; }
      var done := Complete(job.value, message, verdict);
      if done.None? { return false; }
      job := done;
      completed := true;
    }

    method MarkFailedJob(message: Message, code: string)
      modifies this
      ensures job ==
              if old(job).Some? && old(job).value.revision == message.expectedRevision &&
                 old(job).value.status !in {Cancelled, Importing, Completed, Failed}
              then Some(old(job).value.(
                status := Failed, revision := message.expectedRevision + 1, failure := Some(code)))
              else old(job)
    {
      if job.Some? { job := Some(MarkFailed(job.value, message, code)); }
    }

    /** processParse, undisturbed. */
    method ProcessParse(message: Message, work: Work<C, R>) returns (outcome: Outcome)
      requires message.operation == Parse
      modifies this
      ensures job == if old(job).Some? then Some(Settled(old(job).value, message, work)) else None
      ensures old(job).None? ==> outcome == Skipped(NotFound)
      ensures old(job).Some? ==>
                var before := old(job).value;
                var verdict := work.judge(before.config, before.rows);
                if before.revision != message.expectedRevision then
                  outcome == Skipped(StaleRevision) && job == old(job)
                else if before.status != Uploaded && before.status != Parsing then
                  outcome == Skipped(AlreadyProcessed) && job == old(job)
                else if verdict.Fail? then
                  outcome == FailedPermanently &&
                  job.Some? && job.value.status == Failed && job.value.revision == before.revision + 1 &&
                  job.value.failure == Some(verdict.code) && job.value.rows == before.rows
                else
                  outcome == Finished &&
                  job == Some(Job(verdict.status, before.revision + 1, verdict.config, verdict.rows, None))
    {
      SkipReasonExactly(job, message);
      var skip := SkipReason(job, message);
      if skip.Some? { return Skipped(skip.value); }
      var loaded := job.value;
      if loaded.status == Uploaded {
        var transitioned := MarkClaimedJob(message);
        if !transitioned { return Skipped(StaleRevision); }
      }
      var verdict := work.judge(loaded.config, loaded.rows);
      if verdict.Fail? {
        MarkFailedJob(message, verdict.code);
        return FailedPermanently;
      }
      var completed := CompleteJob(message, verdict);
      outcome := if completed then Finished else Skipped(StaleRevision);
    }

    /** processValidation, undisturbed. */
    method ProcessValidation(message: Message, work: Work<C, R>) returns (outcome: Outcome)
      requires message.operation == Validate
      modifies this
      ensures job == if old(job).Some? then Some(Settled(old(job).value, message, work)) else None
      ensures old(job).None? ==> outcome == Skipped(NotFound)
      ensures old(job).Some? ==>
                var before := old(job).value;
                var mappingError, verdict := work.mappingError(before.config), work.judge(before.config, before.rows);
                var failure := if mappingError.Some? then mappingError
                               else if verdict.Fail? then Some(verdict.code) else None;
                if before.revision != message.expectedRevision then
                  outcome == Skipped(StaleRevision) && job == old(job)
                else if before.status !in {AwaitingMapping, Validating, Reviewing, Ready} then
                  outcome == Skipped(AlreadyProcessed) && job == old(job)
                else if failure.Some? then
                  outcome == FailedPermanently &&
                  job.Some? && job.value.status == Failed && job.value.revision == before.revision + 1 &&
                  job.value.failure == failure && job.value.rows == before.rows
                else
                  outcome == Finished &&
                  job == Some(Job(verdict.status, before.revision + 1, verdict.config, verdict.rows, None))
    {
      SkipReasonExactly(job, message);
      var skip := SkipReason(job, message);
      if skip.Some? { return Skipped(skip.value); }
      var loaded := job.value;
      var mappingError := work.mappingError(loaded.config);
      if mappingError.Some? {
        MarkFailedJob(message, mappingError.value);
        return FailedPermanently;
      }
      if loaded.status != Validating {
        var transitioned := MarkClaimedJob(message);
        if !transitioned { return Skipped(StaleRevision); }
      }
      var verdict := work.judge(loaded.config, loaded.rows);
      if verdict.Fail? {
        MarkFailedJob(message, verdict.code);
        return FailedPermanently;
      }
      var completed := CompleteJob(message, verdict);
      outcome := if completed then Finished else Skipped(StaleRevision);
    }
  }
}
