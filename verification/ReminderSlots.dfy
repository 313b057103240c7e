/** The timer that enqueues one reminder sweep per evaluation slot, and when it skips a slot. */
module ReminderSlots {

  const INTERVAL := 60 * 60_000
  const RETRY_DELAY := 30_000

  /** One firing of the timer: how late it fires, how long its enqueue takes, and whether that succeeds. */
  datatype Firing = Firing(late: nat, duration: nat, succeeds: bool)

  function SlotAt(time: nat): nat { time / INTERVAL }

  /** Slots last an hour each, from the epoch on. */
  lemma SlotBounds(time: nat, slot: nat)
    ensures SlotAt(time) == slot <==> slot * 3_600_000 <= time < (slot + 1) * 3_600_000
  {
  }

  /** A firing of a timer that was due at `due`: the slot it enqueues, and when the timer is due next. */
  function FiredAt(due: nat, firing: Firing): nat { due + firing.late }

  function FinishedAt(due: nat, firing: Firing): nat { FiredAt(due, firing) + firing.duration }

  function NextDue(due: nat, firing: Firing): nat {
    var now := FinishedAt(due, firing);
    if firing.succeeds then now + (INTERVAL - now % INTERVAL) else now + RETRY_DELAY
  }

  function DueAfter(due: nat, firings: seq<Firing>): nat {
    if firings == [] then due else NextDue(DueAfter(due, firings[..|firings| - 1]), firings[|firings| - 1])
  }

  /** The slot that the n-th firing asks for. */
  function AskedSlot(due: nat, firings: seq<Firing>, n: nat): nat
    requires n < |firings|
  {
    SlotAt(FiredAt(DueAfter(due, firings[..n]), firings[n]))
  }

  /** Whether the n-th firing's enqueue ends in the slot it asked for. */
  predicate FinishesInSlot(due: nat, firings: seq<Firing>, n: nat)
    requires n < |firings|
  {
    SlotAt(FinishedAt(DueAfter(due, firings[..n]), firings[n])) == AskedSlot(due, firings, n)
  }

  /** How far into its slot the n-th firing's enqueue ends. */
  function IntoSlot(due: nat, firings: seq<Firing>, n: nat): nat
    requires n < |firings|
  {
    FinishedAt(DueAfter(due, firings[..n]), firings[n]) % INTERVAL
  }

  lemma DueAfterOneMore(due: nat, firings: seq<Firing>, n: nat)
    requires n < |firings|
    ensures DueAfter(due, firings[..n + 1]) == NextDue(DueAfter(due, firings[..n]), firings[n])
  {
    assert firings[..n + 1][..n] == firings[..n];
  }

  /**
   * After a successful enqueue the timer asks for the very next slot exactly when the enqueue ended in its
   * own slot and the timer then fires less than an interval late.
   */
  lemma NextSlotExactly(due: nat, firings: seq<Firing>, n: nat)
    requires n + 1 < |firings| && firings[n].succeeds
    ensures AskedSlot(due, firings, n + 1) == AskedSlot(due, firings, n) + 1 <==>
            FinishesInSlot(due, firings, n) && firings[n + 1].late < 3_600_000
    ensures AskedSlot(due, firings, n + 1) > AskedSlot(due, firings, n)
  {
    DueAfterOneMore(due, firings, n);
    var fired := FiredAt(DueAfter(due, firings[..n]), firings[n]);
    var now := FinishedAt(DueAfter(due, firings[..n]), firings[n]);
    var next := DueAfter(due, firings[..n + 1]);
    assert next == now + (INTERVAL - now % INTERVAL);
    NextSlotBegins(now, firings[n + 1].late);
    SlotOrder(fired, now);
  }

  lemma NextSlotBegins(now: nat, late: nat)
    ensures SlotAt(now + (INTERVAL - now % INTERVAL) + late) == SlotAt(now) + 1 + late / INTERVAL
    ensures late / INTERVAL == 0 <==> late < INTERVAL
  {
    assert now + (INTERVAL - now % INTERVAL) == (now / INTERVAL + 1) * INTERVAL;
    SlotsApart(now / INTERVAL + 1, late);
  }

  lemma SlotsApart(slot: nat, late: nat)
    ensures SlotAt(slot * INTERVAL + late) == slot + late / INTERVAL
  {
  }

  lemma SlotOrder(a: nat, b: nat)
    requires a <= b
    ensures SlotAt(a) <= SlotAt(b)
  {
  }

  /**
   * A failed enqueue is retried in its own slot exactly when, counted from the start of that slot, the
   * failure, the fixed delay and the timer's lateness still fit into the interval.
   */
  lemma RetryStaysInSlotExactly(due: nat, firings: seq<Firing>, n: nat)
    requires n + 1 < |firings| && !firings[n].succeeds
    ensures AskedSlot(due, firings, n + 1) == AskedSlot(due, firings, n) <==>
            FinishesInSlot(due, firings, n) && IntoSlot(due, firings, n) + 30_000 + firings[n + 1].late < 3_600_000
    ensures AskedSlot(due, firings, n + 1) >= AskedSlot(due, firings, n)
  {
    DueAfterOneMore(due, firings, n);
    var fired := FiredAt(DueAfter(due, firings[..n]), firings[n]);
    var now := FinishedAt(DueAfter(due, firings[..n]), firings[n]);
    var later := RETRY_DELAY + firings[n + 1].late;
    SlotOrder(fired, now);
    SlotOrder(now, now + later);
    assert now == (now / INTERVAL) * INTERVAL + now % INTERVAL;
    SlotsApart(now / INTERVAL, now % INTERVAL + later);
  }

  /** Every firing finishes in its slot, and leaves room for what comes after it. */
  ghost predicate Punctual(due: nat, firings: seq<Firing>) {
    forall n :: 0 <= n < |firings| - 1 ==>
      && FinishesInSlot(due, firings, n)
      && (if firings[n].succeeds then firings[n + 1].late < INTERVAL
          else IntoSlot(due, firings, n) + RETRY_DELAY + firings[n + 1].late < INTERVAL)
  }

  predicate Enqueued(due: nat, firings: seq<Firing>, slot: nat) {
    exists n :: 0 <= n < |firings| && firings[n].succeeds && AskedSlot(due, firings, n) == slot
  }

  lemma {:induction false} PunctualPrefix(due: nat, firings: seq<Firing>, m: nat)
    requires m <= |firings|
    ensures forall n :: 0 <= n < m ==>
              AskedSlot(due, firings[..m], n) == AskedSlot(due, firings, n) &&
              FinishesInSlot(due, firings[..m], n) == FinishesInSlot(due, firings, n) &&
              IntoSlot(due, firings[..m], n) == IntoSlot(due, firings, n)
  {
    forall n | 0 <= n < m
      ensures AskedSlot(due, firings[..m], n) == AskedSlot(due, firings, n)
      ensures FinishesInSlot(due, firings[..m], n) == FinishesInSlot(due, firings, n)
      ensures IntoSlot(due, firings[..m], n) == IntoSlot(due, firings, n)
    {
      assert firings[..m][..n] == firings[..n];
    }
  }

  lemma PunctualFront(due: nat, firings: seq<Firing>)
    requires |firings| > 1 && Punctual(due, firings)
    ensures var front := firings[..|firings| - 1];
            && Punctual(due, front)
            && AskedSlot(due, front, 0) == AskedSlot(due, firings, 0)
            && AskedSlot(due, front, |front| - 1) == AskedSlot(due, firings, |front| - 1)
  {
    PunctualPrefix(due, firings, |firings| - 1);
  }

  lemma EnqueuedInFront(due: nat, firings: seq<Firing>, slot: nat)
    requires firings != [] && Enqueued(due, firings[..|firings| - 1], slot)
    ensures Enqueued(due, firings, slot)
  {
    var n := |firings| - 1;
    PunctualPrefix(due, firings, n);
    var k :| 0 <= k < n && firings[..n][k].succeeds && AskedSlot(due, firings[..n], k) == slot;
    assert firings[k].succeeds && AskedSlot(due, firings, k) == slot;
  }

  /** Over a punctual run, every slot from the first one asked for up to the last one enqueued is enqueued. */
  lemma {:induction false} NoSlotIsSkipped(due: nat, firings: seq<Firing>, slot: nat)
    requires firings != [] && Punctual(due, firings)
    requires AskedSlot(due, firings, 0) <= slot
    requires slot < AskedSlot(due, firings, |firings| - 1) ||
             (slot == AskedSlot(due, firings, |firings| - 1) && firings[|firings| - 1].succeeds)
    ensures Enqueued(due, firings, slot)
    decreases |firings|
  {
    var n := |firings| - 1;
    if slot < AskedSlot(due, firings, n) {
      assert n > 0;
      PunctualFront(due, firings);
      if firings[n - 1].succeeds {
        NextSlotExactly(due, firings, n - 1);
      } else {
        RetryStaysInSlotExactly(due, firings, n - 1);
      }
      NoSlotIsSkipped(due, firings[..n], slot);
      EnqueuedInFront(due, firings, slot);
    }
  }

  /** The slots asked for never go back, and a successful enqueue is never repeated for its slot. */
  lemma {:induction false} SlotsMoveForward(due: nat, firings: seq<Firing>, m: nat, n: nat)
    requires m < n < |firings|
    ensures AskedSlot(due, firings, m) <= AskedSlot(due, firings, n)
    ensures firings[m].succeeds ==> AskedSlot(due, firings, m) < AskedSlot(due, firings, n)
    decreases n - m
  {
    if firings[m].succeeds { NextSlotExactly(due, firings, m); } else { RetryStaysInSlotExactly(due, firings, m); }
    if m + 1 < n { SlotsMoveForward(due, firings, m + 1, n); }
  }

  /** An enqueue that fails in the last millisecond of its slot: the retry asks for the next slot. */
  lemma RetryLeavesTheSlotExample(slot: nat)
    requires slot > 0
    ensures var due := slot * INTERVAL;
            var firings := [Firing(0, INTERVAL - 1, false), Firing(0, 0, true)];
            && AskedSlot(due, firings, 0) == slot && FinishesInSlot(due, firings, 0)
            && AskedSlot(due, firings, 1) == slot + 1
  {
    var due := slot * INTERVAL;
    var firings := [Firing(0, INTERVAL - 1, false), Firing(0, 0, true)];
    DueAfterOneMore(due, firings, 0);
    assert firings[..0] == [] && DueAfter(due, firings[..1]) == due + INTERVAL - 1 + RETRY_DELAY;
    SlotsApart(slot, 0);
    SlotsApart(slot, INTERVAL - 1);
    SlotsApart(slot, INTERVAL - 1 + RETRY_DELAY);
  }

  // ----- Several workers on one queue -----

  /** A job is added under its slot's id, by whichever worker asks first, or removed once it has finished. */
  datatype QueueEvent = Adds(slot: nat) | Removes(slot: nat)

  /** Adding a job whose id exists changes nothing. */
  function NextQueue(jobs: multiset<nat>, event: QueueEvent): multiset<nat> {
    match event
    case Adds(slot) => if slot in jobs then jobs else jobs + multiset{slot}
    case Removes(slot) => jobs - multiset{slot}
  }

  function Jobs(events: seq<QueueEvent>): multiset<nat> {
    if events == [] then multiset{} else NextQueue(Jobs(events[..|events| - 1]), events[|events| - 1])
  }

  /** How often a job was made for the slot, and how often it was removed. */
  function Made(events: seq<QueueEvent>, slot: nat): nat {
    if events == [] then 0
    else
      var front := events[..|events| - 1];
      Made(front, slot) + if events[|events| - 1] == Adds(slot) && slot !in Jobs(front) then 1 else 0
  }

  function Removed(events: seq<QueueEvent>, slot: nat): nat {
    if events == [] then 0
    else
      var front := events[..|events| - 1];
      Removed(front, slot) + if events[|events| - 1] == Removes(slot) && slot in Jobs(front) then 1 else 0
  }

  /** However the workers interleave, a slot never has two jobs, and a second one is made only after a removal. */
  lemma {:induction false} SlotHasOneJob(events: seq<QueueEvent>, slot: nat)
    ensures Jobs(events)[slot] <= 1
    ensures Made(events, slot) == Removed(events, slot) + Jobs(events)[slot]
  {
    if events != [] {
      var front := events[..|events| - 1];
      SlotHasOneJob(front, slot);
      NextQueueBalances(Jobs(front), events[|events| - 1], slot);
    }
  }

  lemma NextQueueBalances(jobs: multiset<nat>, event: QueueEvent, slot: nat)
    requires jobs[slot] <= 1
    ensures NextQueue(jobs, event)[slot] ==
            jobs[slot] + (if event == Adds(slot) && slot !in jobs then 1 else 0)
                       - (if event == Removes(slot) && slot in jobs then 1 else 0)
  {
  }

  lemma {:induction false} NothingRemoved(events: seq<QueueEvent>, slot: nat)
    requires Removes(slot) !in events
    ensures Removed(events, slot) == 0
  {
    if events != [] { NothingRemoved(events[..|events| - 1], slot); }
  }

  /** The queue saw every successful enqueue of a worker, among whatever else, in any order. */
  ghost predicate Served(due: nat, firings: seq<Firing>, events: seq<QueueEvent>) {
    forall n :: 0 <= n < |firings| && firings[n].succeeds ==> Adds(AskedSlot(due, firings, n)) in events
  }

  /**
   * With any number of workers on the queue, one punctual worker is enough for every slot it lived through
   * to get a job, and that job is made once as long as it has not been removed.
   */
  lemma OnePunctualWorkerIsEnough(due: nat, firings: seq<Firing>, events: seq<QueueEvent>, slot: nat)
    requires firings != [] && Punctual(due, firings) && Served(due, firings, events)
    requires AskedSlot(due, firings, 0) <= slot < AskedSlot(due, firings, |firings| - 1)
    ensures Made(events, slot) >= 1
    ensures Removes(slot) !in events ==> Jobs(events)[slot] == 1 && Made(events, slot) == 1
  {
    NoSlotIsSkipped(due, firings, slot);
    var n :| 0 <= n < |firings| && firings[n].succeeds && AskedSlot(due, firings, n) == slot;
    assert Adds(slot) in events;
    AddingMakesAJob(events, slot);
    SlotHasOneJob(events, slot);
    if Removes(slot) !in events { NothingRemoved(events, slot); }
  }

  lemma {:induction false} AddingMakesAJob(events: seq<QueueEvent>, slot: nat)
    requires Adds(slot) in events
    ensures Made(events, slot) >= 1
  {
    var front := events[..|events| - 1];
    if Adds(slot) in front {
      AddingMakesAJob(front, slot);
    } else {
      assert events == front + [events[|events| - 1]];
      SlotHasOneJob(front, slot);
    }
  }
}
