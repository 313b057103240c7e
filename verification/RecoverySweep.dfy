/**
 * One sweep of reconcileExhaustedSends over a newest-first list of failed jobs that may grow at the front
 * while the sweep pages through it.
 */
module RecoverySweep {
  import opened Basics

  const EXHAUSTED_JOB_LOOKBACK := 24 * 3_600_000
  const PAGE_SIZE: nat := 100
  const MEMO_LIMIT := 50_000

  datatype Operation = DispatchBatch | SendMessage | SendRsvpConfirmation

  /** A failed send job; BullMQ leaves out what it does not know. */
  datatype SendJob = SendJob(
    id: Option<string>, operation: Operation, target: string,
    attempts: Option<int>, attemptsMade: int, finishedOn: Option<int>)

  /** A page can hold gaps where a job has vanished since its id was listed. */
  type Listed = Option<SendJob>

  /** One call of recordExhaustedSendJob. */
  datatype Record = Record(job: SendJob, exhaustedAt: int)

  function FinishedOn(job: SendJob): int {
    if job.finishedOn.Some? then job.finishedOn.value else 0
  }

  function ExhaustedAt(job: SendJob, now: int): int {
    if job.finishedOn.Some? then job.finishedOn.value else now
  }

  predicate Exhausted(job: SendJob) {
    job.attemptsMade >= if job.attempts.Some? then job.attempts.value else 1
  }

  /** A job whose bookkeeping the sweep is responsible for. */
  predicate Qualifies(job: SendJob, now: int) {
    job.id.Some? && job.id.value != "" && FinishedOn(job) >= now - EXHAUSTED_JOB_LOOKBACK &&
    Exhausted(job) && job.operation != SendRsvpConfirmation
  }

  predicate HasId(entry: Listed) {
    entry.Some? && entry.value.id.Some? && entry.value.id.value != ""
  }

  // ----- The sweep as a function -----

  datatype End = Going | AllSeen | Interrupted

  /** The memo set, the calls that went through so far, and whether the sweep has ended. */
  datatype Sweep = Sweep(memo: set<string>, log: seq<Record>, end: End)

  /** The loop body for one entry. The database accepts the n-th call of the sweep if `accepts(n)`. */
  function Visit(sweep: Sweep, entry: Listed, now: int, accepts: nat -> bool): Sweep {
    if sweep.end != Going || !HasId(entry) then sweep
    else
      var job := entry.value;
      if FinishedOn(job) < now - EXHAUSTED_JOB_LOOKBACK then sweep.(end := AllSeen)
      else if job.id.value in sweep.memo || !Exhausted(job) || job.operation == SendRsvpConfirmation then sweep
      else if !accepts(|sweep.log|) then sweep.(end := Interrupted)
      else Sweep(sweep.memo + {job.id.value}, sweep.log + [Record(job, ExhaustedAt(job, now))], Going)
  }

  function VisitAll(sweep: Sweep, page: seq<Listed>, now: int, accepts: nat -> bool): Sweep {
    if page == [] then sweep
    else Visit(VisitAll(sweep, page[..|page| - 1], now, accepts), page[|page| - 1], now, accepts)
  }

  function PageOf(list: seq<Listed>, start: nat): seq<Listed> {
    if |list| <= start then []
    else if |list| <= start + PAGE_SIZE then list[start..]
    else list[start..start + PAGE_SIZE]
  }

  function AfterPage(sweep: Sweep): Sweep {
    if sweep.end == Going && |sweep.memo| > MEMO_LIMIT then sweep.(memo := {}) else sweep
  }

  /** The list as the k-th query finds it; it no longer changes after the last one given. */
  function ListAt(lists: seq<seq<Listed>>, k: nat): seq<Listed>
    requires lists != []
  {
    if k < |lists| then lists[k] else lists[|lists| - 1]
  }

  /** How many queries are left at most: the lists still to come, and what is unread of the last one. */
  function Effort(lists: seq<seq<Listed>>, k: nat): nat
    requires lists != []
  {
    var last := |lists[|lists| - 1]|;
    (if k < |lists| then |lists| - k else 0) + if k * PAGE_SIZE < last then last - k * PAGE_SIZE else 0
  }

  lemma EffortDrops(lists: seq<seq<Listed>>, k: nat)
    requires lists != [] && PageOf(ListAt(lists, k), k * PAGE_SIZE) != []
    ensures Effort(lists, k + 1) < Effort(lists, k)
  {
  }

  function SweepFrom(sweep: Sweep, lists: seq<seq<Listed>>, k: nat, now: int, accepts: nat -> bool): Sweep
    requires lists != []
    decreases Effort(lists, k)
  {
    var page := PageOf(ListAt(lists, k), k * PAGE_SIZE);
    if page == [] then sweep.(end := AllSeen)
    else
      EffortDrops(lists, k);
      var after := VisitAll(sweep, page, now, accepts);
      if after.end != Going then after else SweepFrom(AfterPage(after), lists, k + 1, now, accepts)
  }

  lemma OneMorePage(sweep: Sweep, lists: seq<seq<Listed>>, k: nat, now: int, accepts: nat -> bool)
    requires lists != [] && PageOf(ListAt(lists, k), k * PAGE_SIZE) != []
    ensures var after := VisitAll(sweep, PageOf(ListAt(lists, k), k * PAGE_SIZE), now, accepts);
            SweepFrom(sweep, lists, k, now, accepts) ==
            if after.end != Going then after else SweepFrom(AfterPage(after), lists, k + 1, now, accepts)
  {
    EffortDrops(lists, k);
  }

  // ----- The sweep as the code runs it -----

  class MessagingRecovery {
    var reconciled: set<string>
    var log: seq<Record>

    constructor ()
      ensures reconciled == {} && log == []
    {
      reconciled, log := {}, [];
    }

    /** The inner loop, over one page. This sweep has made `calls` before it, and earlier sweeps `earlier`. */
    method ReplayPage(page: seq<Listed>, calls: seq<Record>, now: int, accepts: nat -> bool, ghost earlier: seq<Record>)
      returns (sweep: Sweep)
      requires log == earlier + calls
      modifies this
      ensures sweep == VisitAll(Sweep(old(reconciled), calls, Going), page, now, accepts)
      ensures reconciled == sweep.memo && log == earlier + sweep.log
    {
      var made := calls;
      for i := 0 to |page|
        invariant log == earlier + made
        invariant Sweep(reconciled, made, Going) ==
                  VisitAll(Sweep(old(reconciled), calls, Going), page[..i], now, accepts)
      {
        assert page[..i + 1][..i] == page[..i];
        if !HasId(page[i]) { continue; }
        var job := page[i].value;
        if FinishedOn(job) < now - EXHAUSTED_JOB_LOOKBACK {
          EndedVisitsChangeNothing(Sweep(old(reconciled), calls, Going), page, i + 1, now, accepts);
          return Sweep(reconciled, made, AllSeen);
        }
        if job.id.value in reconciled || !Exhausted(job) { continue; }
        if job.operation == SendRsvpConfirmation { continue; }
        if !accepts(|made|) {
          EndedVisitsChangeNothing(Sweep(old(reconciled), calls, Going), page, i + 1, now, accepts);
          return Sweep(reconciled, made, Interrupted);
        }
        var record := Record(job, ExhaustedAt(job, now));
        made, log := made + [record], log + [record];
        reconciled := reconciled + {job.id.value};
      }
      assert page[..|page|] == page;
      sweep := Sweep(reconciled, made, Going);
    }

    /** Returns how many bookkeeping calls it replayed, or nothing if one of them threw. */
    method ReconcileExhaustedSends(lists: seq<seq<Listed>>, now: int, accepts: nat -> bool)
      returns (replayed: Option<nat>)
      requires lists != []
      modifies this
      ensures var sweep := SweepFrom(Sweep(old(reconciled), [], Going), lists, 0, now, accepts);
              && reconciled == sweep.memo && log == old(log) + sweep.log
              && replayed == if sweep.end == Interrupted then None else Some(|sweep.log|)
    {
      var sweep := Sweep(reconciled, [], Going);
      ghost var whole := SweepFrom(sweep, lists, 0, now, accepts);
      var k := 0;
      while true
        invariant sweep.end == Going && reconciled == sweep.memo && log == old(log) + sweep.log
        invariant whole == SweepFrom(sweep, lists, k, now, accepts)
        decreases Effort(lists, k)
      {
        var page := PageOf(ListAt(lists, k), k * PAGE_SIZE);
        if |page| == 0 { return Some(|sweep.log|); }
        EffortDrops(lists, k);
        OneMorePage(sweep, lists, k, now, accepts);
        sweep := ReplayPage(page, sweep.log, now, accepts, old(log));
        if sweep.end == AllSeen { return Some(|sweep.log|); }
        if sweep.end == Interrupted { return None; }
        if |reconciled| > MEMO_LIMIT { reconciled := {}; }
        sweep, k := sweep.(memo := reconciled), k + 1;
      }
    }

    /** Lets a later sweep pass over a job that the failure handler has taken care of. */
    method MarkReconciled(jobId: string)
      modifies this`reconciled
      ensures reconciled == old(reconciled) + {jobId}
    {
      reconciled := reconciled + {jobId};
    }
  }

  lemma {:induction false} EndedVisitsChangeNothing(
    sweep: Sweep, page: seq<Listed>, n: nat, now: int, accepts: nat -> bool)
    requires n <= |page| && VisitAll(sweep, page[..n], now, accepts).end != Going
    ensures VisitAll(sweep, page, now, accepts) == VisitAll(sweep, page[..n], now, accepts)
    decreases |page|
  {
    if n < |page| {
      assert page[..|page| - 1][..n] == page[..n];
      EndedVisitsChangeNothing(sweep, page[..|page| - 1], n, now, accepts);
    } else {
      assert page[..n] == page;
    }
  }
}
