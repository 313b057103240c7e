/**
 * What every run of credit transactions keeps: the balance always covers the active holds, each batch's
 * units are conserved, each message is charged and refunded at most once, and replays change nothing.
 */
module CreditRuns {
  import opened Basics
  import opened CreditDomain
  import opened CreditLedger

  /** One transaction. `Record` is a purchase, bonus, adjustment or expiry written by the API service. */
  datatype Op =
    | Reserve(batch: string, units: int, now: int, takenElsewhere: bool)
    | Charge(messageId: string, batch: string, units: int)
    | Refund(messageId: string, batch: string, units: int)
    | Settle(batch: string)
    | Record(entryType: EntryType, units: int, refType: string, refId: string)

  function Attempt(account: Account, op: Op): Outcome {
    match op
    case Reserve(batch, units, now, taken) => ReserveSendBatch(account, batch, units, now, taken)
    case Charge(messageId, batch, units) => ChargeSendUsage(account, messageId, batch, units)
    case Refund(messageId, batch, units) => RefundSendUsage(account, messageId, batch, units)
    case Settle(batch) => SettleSendBatchReservation(account, batch)
    case Record(entryType, units, refType, refId) =>
      if entryType == EntryType.SendUsage || entryType == EntryType.Refund then Done(false, account)
      else InsertEntry(account, Entry(entryType, units, refType, refId, None))
  }

  /** An aborted transaction is rolled back. */
  function Step(account: Account, op: Op): Account {
    var outcome := Attempt(account, op);
    if outcome.Done? then outcome.account else account
  }

  /** The account after the transactions `ops`, starting from a new account. */
  function Run(ops: seq<Op>): Account {
    if ops == [] then Account([], []) else Step(Run(ops[..|ops| - 1]), ops[|ops| - 1])
  }

  // ----- Invariants -----

  ghost predicate UniqueReferences(entries: seq<Entry>) {
    forall i, j :: 0 <= i < j < |entries| ==>
      (entries[i].entryType, entries[i].refType, entries[i].refId) !=
      (entries[j].entryType, entries[j].refType, entries[j].refId)
  }

  ghost predicate RefundsFollowCharges(entries: seq<Entry>) {
    forall j :: 0 <= j < |entries| && entries[j].entryType == EntryType.Refund ==>
      entries[j].refType == MESSAGE_REFERENCE_TYPE &&
      HasEntry(entries[..j], SendUsage, MESSAGE_REFERENCE_TYPE, entries[j].refId)
  }

  ghost predicate Sound(account: Account) {
    && (forall e :: e in account.entries ==> SignOk(e.entryType, e.units) && FitsInteger(e.units))
    && UniqueReferences(account.entries)
    && RefundsFollowCharges(account.entries)
    && (forall h :: h in account.holds ==> 0 < h.units && FitsInteger(h.units))
    && (forall i, j :: 0 <= i < j < |account.holds| ==> account.holds[i].batch != account.holds[j].batch)
    && GuardAvailable(account) >= 0
  }

  // ----- How the writes move the availability figures -----

  lemma InsertEntryEffect(account: Account, entry: Entry, now: int)
    requires InsertEntry(account, entry) == Done(true, account.(entries := account.entries + [entry]))
    ensures var after := account.(entries := account.entries + [entry]);
            && GuardAvailable(after) == GuardAvailable(account) + entry.units
            && LiveAvailable(after, now) == LiveAvailable(account, now) + entry.units
  {
    SumAppend(account.entries, entry, EntryUnits);
  }

  lemma UpdateHoldEffect(account: Account, i: nat, units: int, status: Status, now: int)
    requires i < |account.holds| && UpdateHold(account, i, units, status).Done?
    ensures var before, after := account.holds[i], UpdateHold(account, i, units, status).account;
            && GuardAvailable(after) ==
               GuardAvailable(account) + ActiveHoldUnits(before) - ActiveHoldUnits(after.holds[i])
            && LiveAvailable(after, now) ==
               LiveAvailable(account, now) + LiveHoldUnits(now)(before) - LiveHoldUnits(now)(after.holds[i])
  {
    var after := UpdateHold(account, i, units, status).account;
    SumUpdate(account.holds, i, after.holds[i], ActiveHoldUnits);
    SumUpdate(account.holds, i, after.holds[i], LiveHoldUnits(now));
  }

  lemma CreateHoldEffect(account: Account, hold: Hold, now: int)
    requires CreateHold(account, hold).Done?
    ensures var after := CreateHold(account, hold).account;
            && GuardAvailable(after) == GuardAvailable(account) - ActiveHoldUnits(hold)
            && LiveAvailable(after, now) == LiveAvailable(account, now) - LiveHoldUnits(now)(hold)
  {
    SumAppend(account.holds, hold, ActiveHoldUnits);
    SumAppend(account.holds, hold, LiveHoldUnits(now));
  }

  lemma RefundsStillFollow(entries: seq<Entry>, entry: Entry)
    requires RefundsFollowCharges(entries)
    requires entry.entryType == EntryType.Refund ==>
               entry.refType == MESSAGE_REFERENCE_TYPE &&
               HasEntry(entries, SendUsage, MESSAGE_REFERENCE_TYPE, entry.refId)
    ensures RefundsFollowCharges(entries + [entry])
  {
    var after := entries + [entry];
    forall j | 0 <= j < |after| && after[j].entryType == EntryType.Refund
      ensures after[j].refType == MESSAGE_REFERENCE_TYPE &&
              HasEntry(after[..j], SendUsage, MESSAGE_REFERENCE_TYPE, after[j].refId)
    {
      if j < |entries| {
        assert entries[j] == after[j] && after[..j] == entries[..j];
      } else {
        assert after[..j] == entries;
      }
    }
  }

  lemma ReferencesStayUnique(entries: seq<Entry>, entry: Entry)
    requires UniqueReferences(entries) && !HasEntry(entries, entry.entryType, entry.refType, entry.refId)
    ensures UniqueReferences(entries + [entry])
  {
  }

  lemma InsertEntryKeepsSound(account: Account, entry: Entry)
    requires Sound(account) && InsertEntry(account, entry).Done?
    requires entry.entryType == EntryType.Refund ==>
               entry.refType == MESSAGE_REFERENCE_TYPE && IsCharged(account, entry.refId)
    ensures Sound(InsertEntry(account, entry).account)
  {
    if InsertEntry(account, entry).result {
      InsertEntryEffect(account, entry, 0);
      ReferencesStayUnique(account.entries, entry);
      RefundsStillFollow(account.entries, entry);
      assert forall e :: e in account.entries + [entry] <==> e in account.entries || e == entry;
    }
  }

  lemma UpdateHoldKeepsSound(account: Account, i: nat, units: int, status: Status)
    requires Sound(account) && i < |account.holds| && UpdateHold(account, i, units, status).Done?
    ensures Sound(UpdateHold(account, i, units, status).account)
  {
    UpdateHoldEffect(account, i, units, status, 0);
  }

  /** Whatever units the reading half saw, a charge that commits leaves a sound account. */
  lemma WriteChargeKeepsSound(
    account: Account, i: nat, unitsRead: int, messageId: string, batch: string, units: int)
    requires Sound(account) && i < |account.holds|
    requires WriteCharge(account, i, unitsRead, messageId, batch, units).Done?
    ensures Sound(WriteCharge(account, i, unitsRead, messageId, batch, units).account)
  {
    var charge := ChargeReservation(Active, unitsRead, units).value;
    UpdateHoldKeepsSound(account, i, charge.heldUnits, charge.status);
    InsertEntryKeepsSound(
      UpdateHold(account, i, charge.heldUnits, charge.status).account,
      Entry(SendUsage, -units, MESSAGE_REFERENCE_TYPE, messageId, Some(batch)));
  }

  lemma StepKeepsSound(account: Account, op: Op)
    requires Sound(account)
    ensures Sound(Step(account, op))
  {
    match op
    case Reserve(batch, units, now, taken) =>
      var hold := Hold(batch, Active, units, now + RESERVATION_TTL_MILLISECONDS);
      if Attempt(account, op).Done? && units > 0 { CreateHoldEffect(account, hold, now); }
    case Charge(messageId, batch, units) =>
      var index := HoldIndex(account.holds, batch);
      if Attempt(account, op).Done? && Step(account, op) != account {
        WriteChargeKeepsSound(account, index.value, account.holds[index.value].units, messageId, batch, units);
      }
    case Refund(messageId, batch, units) =>
      var entry := Entry(EntryType.Refund, units, MESSAGE_REFERENCE_TYPE, messageId, Some(batch));
      if Step(account, op) != account { InsertEntryKeepsSound(account, entry); }
    case Settle(batch) =>
      var index := HoldIndex(account.holds, batch);
      if Step(account, op) != account {
        UpdateHoldKeepsSound(account, index.value, account.holds[index.value].units, Released);
      }
    case Record(entryType, units, refType, refId) =>
      if Step(account, op) != account { InsertEntryKeepsSound(account, Entry(entryType, units, refType, refId, None)); }
  }

  /** In every reachable state the rows obey their constraints and the balance covers the active holds. */
  lemma {:induction false} EveryRunIsSound(ops: seq<Op>)
    ensures Sound(Run(ops))
  {
    if ops != [] {
      EveryRunIsSound(ops[..|ops| - 1]);
      StepKeepsSound(Run(ops[..|ops| - 1]), ops[|ops| - 1]);
    }
  }

  lemma GuardIsStricter(account: Account, now: int)
    requires forall h :: h in account.holds ==> 0 < h.units
    ensures GuardAvailable(account) <= LiveAvailable(account, now)
  {
    SumMonotone(account.holds, LiveHoldUnits(now), ActiveHoldUnits);
  }

  /** Available credit is never negative, whatever was run and whatever the clock says. */
  lemma AvailableNeverNegative(ops: seq<Op>, now: int)
    ensures 0 <= GuardAvailable(Run(ops)) <= LiveAvailable(Run(ops), now)
  {
    EveryRunIsSound(ops);
    GuardIsStricter(Run(ops), now);
  }

  // ----- What each transaction does to availability -----

  /**
   * A charge never trips a guard: in a sound account the only way it can abort is an unsafe argument. It
   * succeeds exactly for an uncharged message whose batch still holds enough, and then leaves the guarded
   * availability exactly as it was; the reported availability is unchanged too if the hold is live, and
   * falls by the charge if the hold has expired but is still active.
   */
  lemma ChargeIsCoveredByItsHold(account: Account, messageId: string, batch: string, units: int, now: int)
    requires Sound(account)
    ensures var outcome := ChargeSendUsage(account, messageId, batch, units);
            && (outcome.Aborted? <==> units > 0 && !Safe(units))
            && (outcome.Done? && outcome.result <==>
                  0 < units && Safe(units) && !IsCharged(account, messageId) &&
                  exists h :: h in account.holds && h.batch == batch && h.status == Active && units <= h.units)
            && (outcome.Done? && outcome.result ==>
                  var hold := account.holds[HoldIndex(account.holds, batch).value];
                  && GuardAvailable(outcome.account) == GuardAvailable(account)
                  && LiveAvailable(outcome.account, now) ==
                     LiveAvailable(account, now) - (if now < hold.expiresAt then 0 else units))
            && (outcome.Done? && !outcome.result ==> outcome.account == account)
  {
    var index := HoldIndex(account.holds, batch);
    assert forall h :: h in account.holds && h.batch == batch ==> index.Some? && h == account.holds[index.value];
    if 0 < units && Safe(units) && !IsCharged(account, messageId) && index.Some? &&
       account.holds[index.value].status == Active && units <= account.holds[index.value].units
    {
      var i := index.value;
      assert account.holds[i] in account.holds;
      SuccessfulCharge(account, i, messageId, batch, units, now);
    }
  }

  lemma SuccessfulCharge(account: Account, i: nat, messageId: string, batch: string, units: int, now: int)
    requires Sound(account) && 0 < units && Safe(units) && !IsCharged(account, messageId)
    requires i < |account.holds| && account.holds[i].status == Active && units <= account.holds[i].units
    ensures var outcome := WriteCharge(account, i, account.holds[i].units, messageId, batch, units);
            && outcome.Done? && outcome.result
            && GuardAvailable(outcome.account) == GuardAvailable(account)
            && LiveAvailable(outcome.account, now) ==
               LiveAvailable(account, now) - (if now < account.holds[i].expiresAt then 0 else units)
  {
    assert account.holds[i] in account.holds;
    var charge := ChargeReservation(Active, account.holds[i].units, units).value;
    var updated := UpdateHold(account, i, charge.heldUnits, charge.status);
    UpdateHoldEffect(account, i, charge.heldUnits, charge.status, now);
    var entry := Entry(SendUsage, -units, MESSAGE_REFERENCE_TYPE, messageId, Some(batch));
    InsertEntryEffect(updated.account, entry, now);
  }

  /** What a refund or a settlement gives back to the availability at `now`. */
  function Freed(account: Account, op: Op, now: Option<int>): int {
    match op
    case Refund(messageId, _, units) =>
      if 0 < units && IsCharged(account, messageId) &&
         !HasEntry(account.entries, EntryType.Refund, MESSAGE_REFERENCE_TYPE, messageId) then units else 0
    case Settle(batch) =>
      var index := HoldIndex(account.holds, batch);
      if index.None? then 0
      else if now.Some? then LiveHoldUnits(now.value)(account.holds[index.value])
      else ActiveHoldUnits(account.holds[index.value])
    case _ => 0
  }

  /**
   * Neither a refund nor a settlement is ever rejected. A refund gives its units back exactly for a charged
   * message not refunded yet, a settlement what an active hold of the batch still holds, and otherwise they
   * report false and change nothing.
   */
  lemma RefundsAndSettlementsOnlyFreeCredit(account: Account, op: Op, now: int)
    requires Sound(account) && (op.Settle? || (op.Refund? && FitsInteger(op.units)))
    ensures Attempt(account, op).Done?
    ensures Attempt(account, op).result <==> Freed(account, op, None) > 0
    ensures !Attempt(account, op).result ==> Step(account, op) == account
    ensures GuardAvailable(Step(account, op)) == GuardAvailable(account) + Freed(account, op, None)
    ensures LiveAvailable(Step(account, op), now) == LiveAvailable(account, now) + Freed(account, op, Some(now))
  {
    if op.Settle? {
      var index := HoldIndex(account.holds, op.batch);
      if index.Some? {
        assert account.holds[index.value] in account.holds;
      }
      if index.Some? && account.holds[index.value].status == Active {
        UpdateHoldEffect(account, index.value, account.holds[index.value].units, Released, now);
      }
    } else if op.units > 0 && IsCharged(account, op.messageId) {
      var entry := Entry(EntryType.Refund, op.units, MESSAGE_REFERENCE_TYPE, op.messageId, Some(op.batch));
      if InsertEntry(account, entry) == Done(true, account.(entries := account.entries + [entry])) {
        InsertEntryEffect(account, entry, now);
      }
    }
  }
}
