/** The rows that the bookkeeping of an exhausted send job and the host's retry of a batch write. */
module RecoveryDatabase {
  import opened Basics
  import opened RecoverySweep

  /** `Undispatched` messages failed with their batch's dispatch; `Done` ones are sent, cancelled or failed alone. */
  datatype Status = Queued | Sending | Undispatched | Done

  datatype Message = Message(batch: string, status: Status, attempts: nat)

  datatype Batch = Batch(cancelled: bool, dispatchStartedAt: Option<int>)

  datatype Database = Database(batches: map<string, Batch>, messages: map<string, Message>)

  /** A job's id names what it works on. */
  function JobName(operation: Operation, target: string): string {
    (match operation
     case DispatchBatch => "batch-"
     case SendMessage => "message-"
     case SendRsvpConfirmation => "rsvp-confirmation-") + target
  }

  lemma JobNamesDiffer(a: Operation, x: string, b: Operation, y: string)
    requires JobName(a, x) == JobName(b, y)
    ensures a == b && x == y
  {
    assert JobName(a, x)[0] == JobName(b, y)[0];
    var n := |JobName(a, "")|;
    assert JobName(a, x)[n..] == x && JobName(b, y)[n..] == y;
  }

  predicate IsOpen(db: Database, message: string) {
    message in db.messages && db.messages[message].status in {Queued, Sending}
  }

  /** A message of the batch that nobody has tried to send. */
  predicate Waits(db: Database, batch: string, message: string) {
    message in db.messages && db.messages[message].batch == batch &&
    db.messages[message].status == Queued && db.messages[message].attempts == 0
  }

  predicate IsLiveBatch(db: Database, batch: string) {
    batch in db.batches && !db.batches[batch].cancelled
  }

  predicate PassesFence(db: Database, batch: string, exhaustedAt: int) {
    IsLiveBatch(db, batch) &&
    (db.batches[batch].dispatchStartedAt.None? || db.batches[batch].dispatchStartedAt.value <= exhaustedAt)
  }

  /** recordExhaustedSendJob; confirmations, which the sweep never records, are not modelled. */
  function RecordExhausted(db: Database, record: Record): Database {
    var target := record.job.target;
    match record.job.operation
    case DispatchBatch =>
      if !PassesFence(db, target, record.exhaustedAt) then db
      else db.(messages := map m | m in db.messages ::
                 if Waits(db, target, m) then db.messages[m].(status := Undispatched) else db.messages[m])
    case SendMessage =>
      if !IsOpen(db, target) then db
      else db.(messages := db.messages[target := db.messages[target].(status := Done)])
    case SendRsvpConfirmation => db
  }

  /** The bookkeeping of a record would change something. */
  ghost predicate Admits(db: Database, record: Record) {
    var target := record.job.target;
    match record.job.operation
    case DispatchBatch => PassesFence(db, target, record.exhaustedAt) && exists m :: Waits(db, target, m)
    case SendMessage => IsOpen(db, target)
    case SendRsvpConfirmation => false
  }

  /**
   * Message by message: a batch job fails the queued and untried messages of its batch, unless the batch is
   * cancelled or was dispatched again since; a message job fails its message, if queued or being sent; a
   * confirmation job nothing. Batches stay as they are.
   */
  lemma BookkeepingExactly(db: Database, record: Record)
    ensures var after, target := RecordExhausted(db, record), record.job.target;
            && after.batches == db.batches && after.messages.Keys == db.messages.Keys
            && forall m :: m in db.messages ==>
                 var before := db.messages[m];
                 after.messages[m] ==
                 if record.job.operation == DispatchBatch && target in db.batches && !db.batches[target].cancelled &&
                    (db.batches[target].dispatchStartedAt == None ||
                     db.batches[target].dispatchStartedAt.value <= record.exhaustedAt) &&
                    before.batch == target && before.status == Queued && before.attempts == 0
                 then Message(target, Undispatched, 0)
                 else if record.job.operation == SendMessage && m == target &&
                         (before.status == Queued || before.status == Sending)
                 then Message(before.batch, Done, before.attempts)
                 else before
  {
  }

  /** A retry queues the batch's untried messages again that its dispatch had failed, and fences the batch. */
  lemma RetryExactly(db: Database, batch: string, exhaustedAt: int, clock: int)
    ensures var after := RetryBatch(db, batch, exhaustedAt, clock);
            if batch !in db.batches || db.batches[batch].cancelled then after == db
            else
              && after.batches == db.batches[batch :=
                   Batch(false, Some(if clock > exhaustedAt then clock else exhaustedAt + 1))]
              && after.messages.Keys == db.messages.Keys
              && forall m :: m in db.messages ==>
                   after.messages[m] ==
                   if db.messages[m] == Message(batch, Undispatched, 0) then Message(batch, Queued, 0)
                   else db.messages[m]
  {
  }

  lemma AdmitsMeansChanges(db: Database, record: Record)
    ensures RecordExhausted(db, record) != db <==> Admits(db, record)
  {
    var target, after := record.job.target, RecordExhausted(db, record);
    match record.job.operation
    case DispatchBatch =>
      if m :| Waits(db, target, m) && PassesFence(db, target, record.exhaustedAt) {
        assert after.messages[m] != db.messages[m];
      } else {
        assert after.messages == db.messages;
      }
    case SendMessage =>
      if IsOpen(db, target) { assert after.messages[target] != db.messages[target]; }
    case SendRsvpConfirmation =>
  }

  /** A retry of the batch puts this message back in the queue. */
  predicate Reopens(db: Database, batch: string, message: string) {
    IsLiveBatch(db, batch) && message in db.messages && db.messages[message].batch == batch &&
    db.messages[message].status == Undispatched && db.messages[message].attempts == 0
  }

  /** recoverExhaustedDispatch: the fence lies after the exhaustion that the retry answers. */
  function RetryBatch(db: Database, batch: string, exhaustedAt: int, clock: int): Database {
    if !IsLiveBatch(db, batch) then db
    else
      var fence := if clock < exhaustedAt + 1 then exhaustedAt + 1 else clock;
      Database(
        db.batches[batch := db.batches[batch].(dispatchStartedAt := Some(fence))],
        map m | m in db.messages ::
          if Reopens(db, batch, m) then db.messages[m].(status := Queued) else db.messages[m])
  }

  /** A message is counted as attempted before it is sent. */
  predicate IsPlausible(db: Database) {
    forall m :: m in db.messages && db.messages[m].status == Sending ==> db.messages[m].attempts > 0
  }

  /** The calls of a sweep, applied in order. */
  function ApplyLog(db: Database, log: seq<Record>): Database {
    if log == [] then db else RecordExhausted(ApplyLog(db, log[..|log| - 1]), log[|log| - 1])
  }

  lemma {:induction false} ApplyLogInTwo(db: Database, a: seq<Record>, b: seq<Record>)
    ensures ApplyLog(db, a + b) == ApplyLog(ApplyLog(db, a), b)
  {
    if b == [] {
      assert a + b == a;
    } else {
      assert (a + b)[..|a + b| - 1] == a + b[..|b| - 1];
      ApplyLogInTwo(db, a, b[..|b| - 1]);
    }
  }
}
