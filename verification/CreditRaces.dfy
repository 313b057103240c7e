/**
 * Charges as their callers really run them: chargeSendUsage reads the reservation without locking it, and
 * each caller locks only its own message row, so charges for two messages of one batch can overlap between
 * their reading and their writing half.
 */
module CreditRaces {
  import opened Basics
  import opened CreditDomain
  import opened CreditLedger
  import opened CreditRuns
  import opened CreditConservation
  import opened CreditReservations

  /** What the reading half of a charge saw: which reservation, and how many units it held. */
  datatype Snapshot = Snapshot(index: nat, unitsRead: int, batch: string, units: int)

  /** The account, and for each message whose row is locked the charge waiting to write. */
  datatype System = System(account: Account, pending: map<string, Snapshot>)

  datatype Event =
    | Whole(op: Op)
    | Read(messageId: string, batch: string, units: int)
    | Write(messageId: string)

  /** The caller of a charge or refund waits for the message row that a pending charge has locked. */
  predicate IsBlocked(system: System, op: Op) {
    (op.Charge? || op.Refund?) && op.messageId in system.pending
  }

  /** The charge of `messageId` as it is written now, if it is pending. */
  function WriteOf(system: System, messageId: string): Outcome {
    if messageId !in system.pending || |system.account.holds| <= system.pending[messageId].index then
      Done(false, system.account)
    else
      var s := system.pending[messageId];
      WriteCharge(system.account, s.index, s.unitsRead, messageId, s.batch, s.units)
  }

  function Next(system: System, event: Event): System {
    match event
    case Whole(op) => if IsBlocked(system, op) then system else system.(account := Step(system.account, op))
    case Read(messageId, batch, units) =>
      var account := system.account;
      var index := HoldIndex(account.holds, batch);
      if messageId in system.pending || units <= 0 || IsCharged(account, messageId) || index.None? ||
         account.holds[index.value].status != Active || account.holds[index.value].units < units then system
      else
        var snapshot := Snapshot(index.value, account.holds[index.value].units, batch, units);
        system.(pending := system.pending[messageId := snapshot])
    case Write(messageId) =>
      var outcome := WriteOf(system, messageId);
      System(if outcome.Done? then outcome.account else system.account, system.pending - {messageId})
  }

  function Interleave(events: seq<Event>): System {
    if events == [] then System(Account([], []), map[])
    else Next(Interleave(events[..|events| - 1]), events[|events| - 1])
  }

  /** Under every interleaving of the halves, the guards alone keep the account sound. */
  lemma {:induction false} EveryInterleavingIsSound(events: seq<Event>)
    ensures Sound(Interleave(events).account)
  {
    if events != [] {
      var system, event := Interleave(events[..|events| - 1]), events[|events| - 1];
      EveryInterleavingIsSound(events[..|events| - 1]);
      match event
      case Whole(op) => StepKeepsSound(system.account, op);
      case Read(_, _, _) =>
      case Write(messageId) =>
        if messageId in system.pending && system.pending[messageId].index < |system.account.holds| {
          var s := system.pending[messageId];
          if WriteCharge(system.account, s.index, s.unitsRead, messageId, s.batch, s.units).Done? {
            WriteChargeKeepsSound(system.account, s.index, s.unitsRead, messageId, s.batch, s.units);
          }
        }
    }
  }

  function WrittenHold(account: Account, i: nat, unitsRead: int, units: int): Hold
    requires i < |account.holds| && Safe(unitsRead) && 0 < units <= unitsRead
  {
    var charge := ChargeReservation(Active, unitsRead, units).value;
    account.holds[i].(units := charge.heldUnits, status := charge.status)
  }

  /** A charge that commits rewrites its reservation from what was read and charges its units, no more. */
  lemma WriteEffect(account: Account, i: nat, unitsRead: int, messageId: string, batch: string, units: int)
    requires i < |account.holds| && !IsCharged(account, messageId)
    requires WriteCharge(account, i, unitsRead, messageId, batch, units).Done?
    ensures 0 < units <= unitsRead && Safe(unitsRead)
    ensures var after := WriteCharge(account, i, unitsRead, messageId, batch, units).account;
            var hold := WrittenHold(account, i, unitsRead, units);
            && after.holds == account.holds[i := hold] && Held(hold) == unitsRead - units
            && forall b :: Charged(after, b) == Charged(account, b) + if b == batch then units else 0
  {
    var hold := WrittenHold(account, i, unitsRead, units);
    var entry := Entry(SendUsage, -units, MESSAGE_REFERENCE_TYPE, messageId, Some(batch));
    var held := UpdateHold(account, i, hold.units, hold.status);
    assert held == Done(true, account.(holds := account.holds[i := hold]));
    var after := WriteCharge(account, i, unitsRead, messageId, batch, units).account;
    assert after == Account(account.entries + [entry], account.holds[i := hold]);
    forall b ensures Charged(after, b) == Charged(account, b) + if b == batch then units else 0 {
      ChargedAfter(account.entries, entry, b);
    }
  }

  /**
   * A charge that commits keeps its batch's units conserved exactly when nothing touched the reservation
   * between its two halves.
   */
  lemma OverlappingChargeConserves(
    account: Account, reserved: string -> int, i: nat, unitsRead: int, messageId: string, batch: string, units: int)
    requires Sound(account) && Conserved(account, reserved)
    requires i < |account.holds| && account.holds[i].batch == batch && !IsCharged(account, messageId)
    requires WriteCharge(account, i, unitsRead, messageId, batch, units).Done?
    ensures Conserved(WriteCharge(account, i, unitsRead, messageId, batch, units).account, reserved)
            <==> account.holds[i].status == Active && account.holds[i].units == unitsRead
  {
    var after := WriteCharge(account, i, unitsRead, messageId, batch, units).account;
    var hold := WrittenHold(account, i, unitsRead, units);
    WriteEffect(account, i, unitsRead, messageId, batch, units);
    assert account.holds[i] in account.holds && after.holds[i] in after.holds;
    if account.holds[i].status == Active && account.holds[i].units == unitsRead {
      MovingUnits(account, reserved, reserved, i, hold, after, units);
    }
  }

  /**
   * A charge is rolled back exactly when the account's free credit is less than what its reservation lost
   * since it was read, or when the reservation was settled in between, or used up although the charge would
   * leave units on it, so that the status to be written no longer fits. As long as the reservation is
   * active, only the former can happen. With no overlap the charge is never rolled back.
   */
  lemma OverlappingChargeRejected(
    account: Account, i: nat, unitsRead: int, messageId: string, batch: string, units: int)
    requires Sound(account) && i < |account.holds|
    requires !IsCharged(account, messageId) && 0 < units <= unitsRead && FitsInteger(unitsRead)
    ensures var hold := account.holds[i];
            var outcome := WriteCharge(account, i, unitsRead, messageId, batch, units);
            && (outcome.Aborted? <==>
                  || GuardAvailable(account) < unitsRead - (if hold.status == Active then hold.units else 0)
                  || hold.status == Released || hold.status == Expired
                  || (hold.status == Consumed && units < unitsRead))
            && (hold.status == Active && outcome.Aborted? ==> outcome == Aborted(GuardRejected))
            && (hold.status == Active && hold.units == unitsRead ==> outcome.Done?)
  {
    assert account.holds[i] in account.holds;
    var charge := ChargeReservation(Active, unitsRead, units).value;
    var updated := UpdateHold(account, i, charge.heldUnits, charge.status);
    if updated.Done? { UpdateHoldEffect(account, i, charge.heldUnits, charge.status, 0); }
  }

  /** A charge whose halves nothing separates is the whole charge, which runs while no other locks its message. */
  lemma HalvesMakeACharge(system: System, messageId: string, batch: string, units: int)
    requires Sound(system.account) && messageId !in system.pending
    ensures var read := Next(system, Read(messageId, batch, units));
            && read.account == system.account
            && (messageId in read.pending <==>
                  Attempt(system.account, Charge(messageId, batch, units)).Done? &&
                  Attempt(system.account, Charge(messageId, batch, units)).result)
            && Next(read, Write(messageId)) ==
               System(Step(system.account, Charge(messageId, batch, units)), system.pending)
            && Next(system, Whole(Charge(messageId, batch, units))) == Next(read, Write(messageId))
  {
    ChargeIsCoveredByItsHold(system.account, messageId, batch, units, 0);
    var index := HoldIndex(system.account.holds, batch);
    if index.Some? { assert system.account.holds[index.value] in system.account.holds; }
  }

  // ----- Where every unit goes, over whole interleavings -----

  /** A pending charge was read from its batch's reservation, and its message is not charged yet. */
  ghost predicate PendingFits(system: System) {
    forall m :: m in system.pending ==>
      var s := system.pending[m];
      && s.index < |system.account.holds| && system.account.holds[s.index].batch == s.batch
      && 0 < s.units <= s.unitsRead && !IsCharged(system.account, m)
  }

  lemma WholeKeepsPending(system: System, op: Op)
    requires PendingFits(system) && !IsBlocked(system, op)
    ensures PendingFits(system.(account := Step(system.account, op)))
  {
    var account, after := system.account, Step(system.account, op);
    forall m | m in system.pending ensures !IsCharged(after, m) {
      ChargedByItsCharge(account, op, m);
    }
    assert forall i :: 0 <= i < |account.holds| ==> after.holds[i].batch == account.holds[i].batch;
  }

  lemma ChargedByItsCharge(account: Account, op: Op, messageId: string)
    ensures !IsCharged(account, messageId) && IsCharged(Step(account, op), messageId) ==>
              op.Charge? && op.messageId == messageId
  {
    assert Step(account, op).entries[..|account.entries|] == account.entries;
  }

  lemma WriteKeepsPending(system: System, messageId: string)
    requires PendingFits(system)
    ensures PendingFits(Next(system, Write(messageId)))
  {
    var after := Next(system, Write(messageId));
    forall m | m in after.pending ensures !IsCharged(after.account, m) {
      assert after.account.entries[..|system.account.entries|] == system.account.entries;
    }
  }

  lemma {:induction false} PendingAlwaysFits(events: seq<Event>)
    ensures PendingFits(Interleave(events))
  {
    if events != [] {
      var front, event := events[..|events| - 1], events[|events| - 1];
      PendingAlwaysFits(front);
      match event
      case Whole(op) => if !IsBlocked(Interleave(front), op) { WholeKeepsPending(Interleave(front), op); }
      case Read(_, _, _) =>
      case Write(messageId) => WriteKeepsPending(Interleave(front), messageId);
    }
  }

  /** What a committing write shifts its batch by: the units read, less what the reservation still holds. */
  function DriftOf(system: System, event: Event, batch: string): int {
    if event.Write? && event.messageId in system.pending && system.pending[event.messageId].batch == batch &&
       system.pending[event.messageId].index < |system.account.holds| && WriteOf(system, event.messageId).Done?
    then
      var s := system.pending[event.messageId];
      s.unitsRead - Held(system.account.holds[s.index])
    else 0
  }

  function Drift(events: seq<Event>, batch: string): int {
    if events == [] then 0
    else
      var front := events[..|events| - 1];
      Drift(front, batch) + DriftOf(Interleave(front), events[|events| - 1], batch)
  }

  /** The units of the batch's reservation as it was first created; zero if it never was. */
  function FirstHeld(events: seq<Event>, batch: string): int {
    if events == [] then 0
    else
      var front, last := events[..|events| - 1], events[|events| - 1];
      if HasHold(Interleave(front).account.holds, batch) then FirstHeld(front, batch)
      else if last.Whole? && last.op.Reserve? && HasHold(Interleave(events).account.holds, batch) then last.op.units
      else 0
  }

  function Owed(events: seq<Event>): string -> int {
    (batch: string) => FirstHeld(events, batch) + Drift(events, batch)
  }

  lemma HoldsAreNeverLost(system: System, event: Event, batch: string)
    requires HasHold(system.account.holds, batch)
    ensures HasHold(Next(system, event).account.holds, batch)
  {
    match event
    case Whole(op) => HoldsAppearByReserving(system.account, op, batch);
    case Read(_, _, _) =>
    case Write(messageId) =>
      if WriteOf(system, messageId).Done? { WritesKeepBatches(system, messageId, batch); }
  }

  lemma WritesKeepBatches(system: System, messageId: string, batch: string)
    requires HasHold(system.account.holds, batch) && WriteOf(system, messageId).Done?
    ensures HasHold(WriteOf(system, messageId).account.holds, batch)
  {
    var holds, after := system.account.holds, WriteOf(system, messageId).account.holds;
    var i :| 0 <= i < |holds| && holds[i].batch == batch;
    assert |after| == |holds| && after[i].batch == batch;
  }

  lemma {:induction false} NoHoldNoDrift(events: seq<Event>, batch: string)
    requires !HasHold(Interleave(events).account.holds, batch)
    ensures Drift(events, batch) == 0
  {
    if events != [] {
      var front, event := events[..|events| - 1], events[|events| - 1];
      if HasHold(Interleave(front).account.holds, batch) {
        HoldsAreNeverLost(Interleave(front), event, batch);
      }
      NoHoldNoDrift(front, batch);
      PendingAlwaysFits(front);
    }
  }

  lemma WriteShiftsByItsDrift(
    system: System, messageId: string, reserved: string -> int, reserved': string -> int)
    requires Sound(system.account) && PendingFits(system) && Conserved(system.account, reserved)
    requires forall b :: HasHold(system.account.holds, b) ==>
               reserved'(b) == reserved(b) + DriftOf(system, Write(messageId), b)
    ensures Conserved(Next(system, Write(messageId)).account, reserved')
  {
    var account, written := system.account, WriteOf(system, messageId);
    if messageId in system.pending && written.Done? {
      var s := system.pending[messageId];
      assert written == WriteCharge(account, s.index, s.unitsRead, messageId, s.batch, s.units);
      WriteEffect(account, s.index, s.unitsRead, messageId, s.batch, s.units);
      var hold := WrittenHold(account, s.index, s.unitsRead, s.units);
      forall b | HasHold(account.holds, b)
        ensures reserved'(b) ==
                reserved(b) + if b == hold.batch then s.units + Held(hold) - Held(account.holds[s.index]) else 0
      {
        assert DriftOf(system, Write(messageId), b) ==
               if b == s.batch then s.unitsRead - Held(account.holds[s.index]) else 0;
      }
      MovingUnits(account, reserved, reserved', s.index, hold, written.account, s.units);
    } else {
      forall h | h in account.holds ensures reserved'(h.batch) == reserved(h.batch) {
        assert HasHold(account.holds, h.batch);
      }
    }
  }

  lemma WholeConserves(account: Account, op: Op, reserved: string -> int, reserved': string -> int)
    requires Sound(account) && Conserved(account, reserved)
    requires forall b :: HasHold(account.holds, b) ==> reserved'(b) == reserved(b)
    requires op.Reserve? && Step(account, op) != account ==> reserved'(op.batch) == op.units
    ensures Conserved(Step(account, op), reserved')
  {
    match op
    case Reserve(_, _, _, _) => ReserveConserves(account, reserved, reserved', op);
    case Charge(_, _, _) =>
      ChargeConserves(account, reserved, op);
      SameReservationsConserve(account, reserved, reserved', op);
    case Settle(_) =>
      SettleConserves(account, reserved, op);
      SameReservationsConserve(account, reserved, reserved', op);
    case _ =>
      OtherEntriesConserve(account, reserved, op);
      SameReservationsConserve(account, reserved, reserved', op);
  }

  predicate IsNewHold(events: seq<Event>, batch: string)
    requires events != []
  {
    HasHold(Interleave(events).account.holds, batch) &&
    !HasHold(Interleave(events[..|events| - 1]).account.holds, batch)
  }

  lemma OwedByHeldBatches(events: seq<Event>, batch: string)
    requires events != []
    ensures var front, event := events[..|events| - 1], events[|events| - 1];
            && (HasHold(Interleave(front).account.holds, batch) ==>
                  Owed(events)(batch) == Owed(front)(batch) + DriftOf(Interleave(front), event, batch))
            && (event.Whole? && event.op.Reserve? && IsNewHold(events, batch) ==> Owed(events)(batch) == event.op.units)
  {
    var front := events[..|events| - 1];
    if !HasHold(Interleave(front).account.holds, batch) { NoHoldNoDrift(front, batch); }
  }

  lemma {:induction false} EveryInterleavingIsAccountedFor(events: seq<Event>)
    ensures Conserved(Interleave(events).account, Owed(events))
  {
    if events != [] {
      var front, event := events[..|events| - 1], events[|events| - 1];
      var system := Interleave(front);
      EveryInterleavingIsSound(front);
      EveryInterleavingIsAccountedFor(front);
      PendingAlwaysFits(front);
      forall b { OwedByHeldBatches(events, b); }
      match event
      case Read(_, _, _) =>
        assert Interleave(events).account == system.account;
        forall h | h in system.account.holds ensures Owed(events)(h.batch) == Owed(front)(h.batch) {
          assert HasHold(system.account.holds, h.batch);
        }
      case Write(messageId) => WriteShiftsByItsDrift(system, messageId, Owed(front), Owed(events));
      case Whole(op) =>
        if IsBlocked(system, op) {
          forall h | h in system.account.holds ensures Owed(events)(h.batch) == Owed(front)(h.batch) {
            assert HasHold(system.account.holds, h.batch);
          }
        } else {
          ReservingIsNew(system.account, op);
          WholeConserves(system.account, op, Owed(front), Owed(events));
        }
    }
  }

  lemma ReservingIsNew(account: Account, op: Op)
    ensures op.Reserve? && Step(account, op) != account ==>
              !HasHold(account.holds, op.batch) && HasHold(Step(account, op).holds, op.batch)
  {
    if op.Reserve? && Step(account, op) != account {
      assert Step(account, op).holds[|account.holds|].batch == op.batch;
    }
  }

  /**
   * Under every interleaving, what was charged to a batch and what its reservation holds add up to what was
   * first reserved and what stale reads counted twice (or, if negative, lost). So the batch is conserved
   * exactly when its writes, taken together, shifted nothing.
   */
  lemma OverlapsAccountForEveryUnit(events: seq<Event>, h: Hold)
    requires h in Interleave(events).account.holds
    ensures Charged(Interleave(events).account, h.batch) + Held(h) ==
            FirstHeld(events, h.batch) + Drift(events, h.batch)
    ensures Charged(Interleave(events).account, h.batch) + Held(h) == FirstHeld(events, h.batch)
            <==> Drift(events, h.batch) == 0
  {
    EveryInterleavingIsAccountedFor(events);
    assert Owed(events)(h.batch) == FirstHeld(events, h.batch) + Drift(events, h.batch);
  }

  // ----- Examples -----

  lemma OneMore(events: seq<Event>, event: Event)
    ensures Interleave(events + [event]) == Next(Interleave(events), event)
  {
    assert (events + [event])[..|events|] == events;
  }

  const PURCHASED := PurchaseEntry(2)
  const BOTH_UNITS := Hold("b", Active, 2, RESERVATION_TTL_MILLISECONDS)
  const SETUP: seq<Event> := [Whole(Purchased(2))] + [Whole(Reserve("b", 2, 0, false))]
  const OVERLAP: seq<Event> := SETUP + [Read("m1", "b", 1)] + [Read("m2", "b", 1)]

  lemma ExampleSetup()
    ensures Interleave(SETUP) == System(Account([PURCHASED], [BOTH_UNITS]), map[])
  {
    PurchaseAlone(2);
    PurchaseThenReserve(2, "b", 2);
    OneMore([], Whole(Purchased(2)));
    assert [] + [Whole(Purchased(2))] == [Whole(Purchased(2))];
    OneMore([Whole(Purchased(2))], Whole(Reserve("b", 2, 0, false)));
  }

  lemma ExampleReads()
    ensures Interleave(OVERLAP) ==
            System(
              Account([PURCHASED], [BOTH_UNITS]),
              map["m1" := Snapshot(0, 2, "b", 1), "m2" := Snapshot(0, 2, "b", 1)])
  {
    ExampleSetup();
    OneMore(SETUP, Read("m1", "b", 1));
    OneMore(SETUP + [Read("m1", "b", 1)], Read("m2", "b", 1));
  }

  const FIRST_CHARGE := Entry(SendUsage, -1, MESSAGE_REFERENCE_TYPE, "m1", Some("b"))
  const AFTER_FIRST := Account([PURCHASED, FIRST_CHARGE], [Hold("b", Active, 1, RESERVATION_TTL_MILLISECONDS)])

  lemma ExampleFirstWrite()
    ensures WriteCharge(Account([PURCHASED], [BOTH_UNITS]), 0, 2, "m1", "b", 1) == Done(true, AFTER_FIRST)
  {
    var held := Account([PURCHASED], [BOTH_UNITS]);
    ExampleReads();
    EveryInterleavingIsSound(OVERLAP);
    OverlappingChargeRejected(held, 0, 2, "m1", "b", 1);
    var updated := UpdateHold(held, 0, 1, Active);
    assert updated.Done? by { assert held.holds[0] in held.holds; }
    assert updated.account.holds == AFTER_FIRST.holds;
  }

  lemma ExampleAfterFirst()
    ensures Interleave(OVERLAP + [Write("m1")]) == System(AFTER_FIRST, map["m2" := Snapshot(0, 2, "b", 1)])
    ensures GuardAvailable(AFTER_FIRST) == 0
  {
    var before := Interleave(OVERLAP);
    ExampleReads();
    ExampleFirstWrite();
    assert WriteOf(before, "m1") == Done(true, AFTER_FIRST);
    OneMore(OVERLAP, Write("m1"));
    assert before.pending - {"m1"} == map["m2" := Snapshot(0, 2, "b", 1)];
    NothingIsFree();
  }

  lemma NothingIsFree()
    ensures GuardAvailable(AFTER_FIRST) == 0
  {
    SumTwo(PURCHASED, FIRST_CHARGE, EntryUnits);
    SumOne(AFTER_FIRST.holds[0], ActiveHoldUnits);
  }

  /**
   * Two messages of a batch are accepted at once, against a reservation that covers them and an account
   * with nothing else free. Once the first charge is written, charging the second in one piece would
   * succeed, but the charge that had already read the reservation is rejected.
   */
  lemma OverlapExample()
    ensures var system := Interleave(OVERLAP + [Write("m1")]);
            && system.pending == map["m2" := Snapshot(0, 2, "b", 1)]
            && |system.account.holds| == 1
            && ChargeSendUsage(system.account, "m2", "b", 1).Done?
            && ChargeSendUsage(system.account, "m2", "b", 1).result
            && WriteCharge(system.account, 0, 2, "m2", "b", 1) == Aborted(GuardRejected)
  {
    ExampleAfterFirst();
    EveryInterleavingIsSound(OVERLAP + [Write("m1")]);
    assert !IsCharged(AFTER_FIRST, "m2");
    OverlappingChargeRejected(AFTER_FIRST, 0, 2, "m2", "b", 1);
    OverlappingChargeRejected(AFTER_FIRST, 0, 1, "m2", "b", 1);
    ChargeIsCoveredByItsHold(AFTER_FIRST, "m2", "b", 1, 0);
    assert HoldIndex(AFTER_FIRST.holds, "b") == Some(0);
  }

  /**
   * A batch that settles between the two halves of a charge: nothing was taken from the reservation and the
   * account has credit to spare, but the charge is rolled back, and with it the record of the accepted send.
   */
  lemma SettledInBetweenExample()
    ensures var system := Interleave(SETUP + [Read("m1", "b", 1)] + [Whole(Settle("b"))]);
            && system.pending == map["m1" := Snapshot(0, 2, "b", 1)]
            && system.account == Account([PURCHASED], [BOTH_UNITS.(status := Released)])
            && GuardAvailable(system.account) == 2
            && WriteCharge(system.account, 0, 2, "m1", "b", 1) == Aborted(ConstraintViolated)
  {
    var read := SETUP + [Read("m1", "b", 1)];
    var held, settled := Account([PURCHASED], [BOTH_UNITS]), Account([PURCHASED], [BOTH_UNITS.(status := Released)]);
    ExampleSetup();
    OneMore(SETUP, Read("m1", "b", 1));
    OneMore(read, Whole(Settle("b")));
    assert HoldIndex(held.holds, "b") == Some(0);
    assert held.holds[0 := BOTH_UNITS.(status := Released)] == settled.holds;
    SumOne(PURCHASED, EntryUnits);
    SumOne(settled.holds[0], ActiveHoldUnits);
  }
}
