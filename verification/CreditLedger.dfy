/**
 * The credit tables of one event and the transactions of apps/worker/src/credit-ledger.ts over them,
 * together with the two database guards and the constraints of migration 20260913210000.
 */
module CreditLedger {
  import opened Basics
  import opened CreditDomain

  const MESSAGE_REFERENCE_TYPE := "Message"
  const RESERVATION_TTL_MILLISECONDS := 24 * 60 * 60_000

  /** A row of credit_ledger_entries; `batch` is the sendBatchId kept in its metadata, if any. */
  datatype Entry = Entry(entryType: EntryType, units: int, refType: string, refId: string, batch: Option<string>)

  /** A row of credit_reservations. Its status decides which of consumed_at and released_at is set. */
  datatype Hold = Hold(batch: string, status: Status, units: int, expiresAt: int)

  /** Everything stored for one event that has a credit account, in insertion order. */
  datatype Account = Account(entries: seq<Entry>, holds: seq<Hold>)

  datatype Failure = RangeError | InsufficientCredits | GuardRejected | ConstraintViolated

  /** How a transaction ends: committed with the function's result, or rolled back. */
  datatype Outcome = Done(result: bool, account: Account) | Aborted(failure: Failure)

  /** The column type INTEGER. */
  predicate FitsInteger(n: int) {
    -0x8000_0000 <= n < 0x8000_0000
  }

  // ----- Amounts -----

  function EntryUnits(entry: Entry): int { entry.units }

  function ActiveHoldUnits(hold: Hold): int {
    if hold.status == Active then hold.units else 0
  }

  function LiveHoldUnits(now: int): Hold -> int {
    (hold: Hold) => if hold.status == Active && now < hold.expiresAt then hold.units else 0
  }

  /** What the database guards compare with zero: the balance less every active hold, expired or not. */
  function GuardAvailable(account: Account): int {
    Sum(account.entries, EntryUnits) - Sum(account.holds, ActiveHoldUnits)
  }

  /** What the application reports: the balance less the active holds that have not expired at `now`. */
  function LiveAvailable(account: Account, now: int): int {
    Sum(account.entries, EntryUnits) - Sum(account.holds, LiveHoldUnits(now))
  }

  // ----- Lookups -----

  predicate HasEntry(entries: seq<Entry>, entryType: EntryType, refType: string, refId: string) {
    exists i :: 0 <= i < |entries| && entries[i].entryType == entryType &&
                entries[i].refType == refType && entries[i].refId == refId
  }

  predicate IsCharged(account: Account, messageId: string) {
    HasEntry(account.entries, SendUsage, MESSAGE_REFERENCE_TYPE, messageId)
  }

  /** The position of the batch's reservation in the table, if there is one. */
  function HoldIndex(holds: seq<Hold>, batch: string): (index: Option<nat>)
    ensures index.Some? ==> index.value < |holds| && holds[index.value].batch == batch
    ensures index.None? ==> forall i :: 0 <= i < |holds| ==> holds[i].batch != batch
  {
    if holds == [] then None
    else if holds[|holds| - 1].batch == batch then Some(|holds| - 1)
    else HoldIndex(holds[..|holds| - 1], batch)
  }

  // ----- What the database admits -----

  /** BEFORE INSERT ON credit_ledger_entries, then the check and unique constraints; duplicates are skipped. */
  function InsertEntry(account: Account, entry: Entry): Outcome {
    if GuardAvailable(account) + entry.units < 0 then Aborted(GuardRejected)
    else if !FitsInteger(entry.units) || !SignOk(entry.entryType, entry.units) then Aborted(ConstraintViolated)
    else if HasEntry(account.entries, entry.entryType, entry.refType, entry.refId) then Done(false, account)
    else Done(true, account.(entries := account.entries + [entry]))
  }

  /** BEFORE INSERT ON credit_reservations, then its constraints. */
  function CreateHold(account: Account, hold: Hold): Outcome {
    if hold.status == Active && GuardAvailable(account) < hold.units then Aborted(GuardRejected)
    else if hold.units <= 0 || !FitsInteger(hold.units) || HoldIndex(account.holds, hold.batch).Some? then
      Aborted(ConstraintViolated)
    else Done(true, account.(holds := account.holds + [hold]))
  }

  /** credit_reservations_state_check: the stamps a row already carries limit its next status. */
  predicate StampsAllow(current: Status, next: Status) {
    match next
    case Active => current == Active
    case Consumed => current == Active || current == Consumed
    case Released | Expired => current != Consumed
  }

  /** BEFORE UPDATE ON credit_reservations: the guard weighs the new units against the other active holds. */
  function UpdateHold(account: Account, i: nat, units: int, status: Status): Outcome
    requires i < |account.holds|
  {
    var current := account.holds[i];
    if status == Active && GuardAvailable(account) + ActiveHoldUnits(current) < units then Aborted(GuardRejected)
    else if units <= 0 || !FitsInteger(units) || !StampsAllow(current.status, status) then Aborted(ConstraintViolated)
    else Done(true, account.(holds := account.holds[i := current.(units := units, status := status)]))
  }

  // ----- The credit position -----

  const ENTRY_TYPES: seq<EntryType> := [Purchase, Bonus, SendUsage, Refund, ManualAdjustment, Expiry]

  function TypeUnits(entryType: EntryType): Entry -> int {
    (entry: Entry) => if entry.entryType == entryType then entry.units else 0
  }

  /** groupBy entryType with _sum, leaving out types that net to zero. */
  function GroupedLines(entries: seq<Entry>, types: seq<EntryType>): seq<Line> {
    if types == [] then []
    else
      var last := types[|types| - 1];
      var units := Sum(entries, TypeUnits(last));
      var before := GroupedLines(entries, types[..|types| - 1]);
      if units == 0 then before else before + [Line(last, units)]
  }

  /** findMany where status is ACTIVE. */
  function ActiveLines(holds: seq<Hold>): seq<HoldLine> {
    if holds == [] then []
    else
      var last := holds[|holds| - 1];
      var before := ActiveLines(holds[..|holds| - 1]);
      if last.status == Active then before + [HoldLine(last.status, last.units, last.expiresAt)] else before
  }

  function PositionAt(account: Account, now: int): Option<CreditPosition> {
    PositionOf(GroupedLines(account.entries, ENTRY_TYPES), ActiveLines(account.holds), now)
  }

  // ----- The transactions -----

  function HasAvailableCredits(account: Account, units: int, now: int): Option<bool> {
    if units <= 0 then Some(true)
    else
      var position := PositionAt(account, now);
      if position.None? then None else Some(position.value.available >= units)
  }

  /** `takenElsewhere`: another event's account already holds this batch id, which is unique across the table. */
  function ReserveSendBatch(account: Account, batch: string, units: int, now: int, takenElsewhere: bool): Outcome {
    if units <= 0 then Done(false, account)
    else if !Safe(units) then Aborted(RangeError)
    else
      var position := PositionAt(account, now);
      if position.None? then Aborted(RangeError)
      else if position.value.available < units then Aborted(InsufficientCredits)
      else
        var created := CreateHold(account, Hold(batch, Active, units, now + RESERVATION_TTL_MILLISECONDS));
        if created.Done? && takenElsewhere then Aborted(ConstraintViolated) else created
  }

  /** The writing half of a charge, given the units that its reading half saw in reservation `i`. */
  function WriteCharge(account: Account, i: nat, unitsRead: int, messageId: string, batch: string, units: int): Outcome
    requires i < |account.holds|
  {
    var charge := ChargeReservation(Active, unitsRead, units);
    if charge.None? then Aborted(RangeError)
    else
      var updated := UpdateHold(account, i, charge.value.heldUnits, charge.value.status);
      if updated.Aborted? then updated
      else InsertEntry(updated.account, Entry(SendUsage, -units, MESSAGE_REFERENCE_TYPE, messageId, Some(batch)))
  }

  function ChargeSendUsage(account: Account, messageId: string, batch: string, units: int): Outcome {
    if units <= 0 then Done(false, account)
    else if !Safe(units) then Aborted(RangeError)
    else if IsCharged(account, messageId) then Done(false, account)
    else
      var index := HoldIndex(account.holds, batch);
      if index.None? || account.holds[index.value].status != Active || account.holds[index.value].units < units then
        Done(false, account)
      else WriteCharge(account, index.value, account.holds[index.value].units, messageId, batch, units)
  }

  function RefundSendUsage(account: Account, messageId: string, batch: string, units: int): Outcome {
    if units <= 0 || !IsCharged(account, messageId) then Done(false, account)
    else if !Safe(units) then Aborted(RangeError)
    else InsertEntry(account, Entry(Refund, units, MESSAGE_REFERENCE_TYPE, messageId, Some(batch)))
  }

  function SettleSendBatchReservation(account: Account, batch: string): Outcome {
    var index := HoldIndex(account.holds, batch);
    if index.None? || account.holds[index.value].status != Active then Done(false, account)
    else UpdateHold(account, index.value, account.holds[index.value].units, Released)
  }

  // ----- The position means what it says -----

  function TypesUnits(types: seq<EntryType>): Entry -> int {
    (entry: Entry) => if entry.entryType in types then entry.units else 0
  }

  lemma {:induction false} SumSplit(entries: seq<Entry>, types: seq<EntryType>, last: EntryType)
    requires last !in types
    ensures Sum(entries, TypesUnits(types + [last])) == Sum(entries, TypesUnits(types)) + Sum(entries, TypeUnits(last))
  {
    if entries != [] {
      SumSplit(entries[..|entries| - 1], types, last);
    }
  }

  lemma {:induction false} GroupingKeepsTotal(entries: seq<Entry>, types: seq<EntryType>)
    requires forall i, j :: 0 <= i < j < |types| ==> types[i] != types[j]
    ensures Sum(GroupedLines(entries, types), LineUnits) == Sum(entries, TypesUnits(types))
  {
    if types == [] {
      SumOfZeros(entries);
    } else {
      var n := |types| - 1;
      GroupingKeepsTotal(entries, types[..n]);
      SumSplit(entries, types[..n], types[n]);
      assert types == types[..n] + [types[n]];
      var units := Sum(entries, TypeUnits(types[n]));
      if units != 0 {
        SumAppend(GroupedLines(entries, types[..n]), Line(types[n], units), LineUnits);
      }
    }
  }

  lemma {:induction false} SumOfZeros(entries: seq<Entry>)
    ensures Sum(entries, TypesUnits([])) == 0
  {
    if entries != [] { SumOfZeros(entries[..|entries| - 1]); }
  }

  lemma {:induction false} ActiveLinesKeepLiveUnits(holds: seq<Hold>, now: int)
    ensures Sum(ActiveLines(holds), LiveLineUnits(now)) == Sum(holds, LiveHoldUnits(now))
  {
    if holds != [] {
      var n := |holds| - 1;
      ActiveLinesKeepLiveUnits(holds[..n], now);
      if holds[n].status == Active {
        SumAppend(ActiveLines(holds[..n]), HoldLine(Active, holds[n].units, holds[n].expiresAt), LiveLineUnits(now));
      }
    }
  }

  lemma {:induction false} AllTypesKeepTotal(entries: seq<Entry>)
    ensures Sum(entries, TypesUnits(ENTRY_TYPES)) == Sum(entries, EntryUnits)
  {
    if entries != [] {
      var last := entries[|entries| - 1];
      AllTypesKeepTotal(entries[..|entries| - 1]);
      EveryTypeIsGrouped(last.entryType);
      assert TypesUnits(ENTRY_TYPES)(last) == EntryUnits(last);
    }
  }

  lemma EveryTypeIsGrouped(entryType: EntryType)
    ensures entryType in ENTRY_TYPES
  {
    assert ENTRY_TYPES[0] == Purchase && ENTRY_TYPES[1] == Bonus && ENTRY_TYPES[2] == SendUsage;
    assert ENTRY_TYPES[3] == Refund && ENTRY_TYPES[4] == ManualAdjustment && ENTRY_TYPES[5] == Expiry;
  }

  /** Grouping by type loses nothing: a computed position is the balance less the live holds, exactly. */
  lemma PositionIsLiveAvailability(account: Account, now: int)
    requires PositionAt(account, now).Some?
    ensures PositionAt(account, now).value.balance == Sum(account.entries, EntryUnits)
    ensures PositionAt(account, now).value.available == LiveAvailable(account, now)
  {
    PositionIsExact(GroupedLines(account.entries, ENTRY_TYPES), ActiveLines(account.holds), now);
    GroupingKeepsTotal(account.entries, ENTRY_TYPES);
    ActiveLinesKeepLiveUnits(account.holds, now);
    AllTypesKeepTotal(account.entries);
  }
}
