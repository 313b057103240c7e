/** The exported functions of apps/worker/src/credit-ledger.ts, as transactions on the stored accounts. */
module CreditDatabase {
  import opened Basics
  import opened CreditDomain
  import opened CreditLedger
  import opened CreditRuns
  import opened CreditReservations
  import opened CreditOutcomes

  /** What the caller of a transaction sees. */
  datatype Verdict = Returned(result: bool) | Raised(failure: Failure)

  /** Batch ids are unique across the whole reservations table. */
  predicate IsReservedElsewhere(accounts: map<string, Account>, eventId: string, batch: string) {
    exists other :: other in accounts && other != eventId && IsReserved(accounts[other], batch)
  }

  class Database {
    /** Accounts by event; an event without an entry is not billed. */
    var accounts: map<string, Account>

    constructor ()
      ensures accounts == map[]
    {
      accounts := map[];
    }

    method CreditPositionOf(eventId: string, now: int) returns (position: Option<CreditPosition>)
      requires eventId in accounts
      ensures position == PositionAt(accounts[eventId], now)
    {
      var account := accounts[eventId];
      var lines: seq<Line> := [];
      for i := 0 to |ENTRY_TYPES|
        invariant lines == GroupedLines(account.entries, ENTRY_TYPES[..i])
      {
        var units := Sum(account.entries, TypeUnits(ENTRY_TYPES[i]));
        assert ENTRY_TYPES[..i + 1][..i] == ENTRY_TYPES[..i];
        if units == 0 { continue; }
        lines := lines + [Line(ENTRY_TYPES[i], units)];
      }
      assert ENTRY_TYPES[..|ENTRY_TYPES|] == ENTRY_TYPES;
      position := CalculateCreditPosition(lines, ActiveLines(account.holds), now);
    }

    method HasAvailable(eventId: string, units: int, now: int) returns (available: Option<bool>)
      ensures eventId in accounts ==> available == HasAvailableCredits(accounts[eventId], units, now)
      ensures units <= 0 || eventId !in accounts ==> available == Some(true)
      ensures eventId in accounts && Sound(accounts[eventId]) && Safe(Volume(accounts[eventId])) && units > 0 ==>
                available == Some(units <= LiveAvailable(accounts[eventId], now))
    {
      if eventId in accounts && Sound(accounts[eventId]) && Safe(Volume(accounts[eventId])) {
        AvailabilityOutcome(accounts[eventId], units, now);
      }
      if units <= 0 || eventId !in accounts { return Some(true); }
      var position := CreditPositionOf(eventId, now);
      available := if position.None? then None else Some(position.value.available >= units);
    }

    method Reserve(eventId: string, batch: string, units: int, now: int) returns (verdict: Verdict)
      modifies this
      ensures eventId !in old(accounts) ==> verdict == Returned(false) && accounts == old(accounts)
      ensures eventId in old(accounts) ==>
                match ReserveSendBatch(
                  old(accounts)[eventId], batch, units, now, IsReservedElsewhere(old(accounts), eventId, batch))
                case Done(result, after) => verdict == Returned(result) && accounts == old(accounts)[eventId := after]
                case Aborted(failure) => verdict == Raised(failure) && accounts == old(accounts)
      ensures verdict == Returned(true) ==>
                forall other, h :: other in old(accounts) && other != eventId && h in old(accounts)[other].holds ==>
                  h.batch != batch
      ensures eventId in old(accounts) && Sound(old(accounts)[eventId]) && Safe(Volume(old(accounts)[eventId])) &&
              0 < units <= GuardAvailable(old(accounts)[eventId]) && units <= 2_147_483_647 &&
              (forall other, h :: other in old(accounts) && h in old(accounts)[other].holds ==> h.batch != batch) ==>
                verdict == Returned(true)
    {
      if eventId in accounts && Sound(accounts[eventId]) && Safe(Volume(accounts[eventId])) {
        ReserveOutcome(accounts[eventId], batch, units, now, IsReservedElsewhere(accounts, eventId, batch));
        GuardIsStricter(accounts[eventId], now);
      }
      if units <= 0 || eventId !in accounts {
        assert eventId in accounts ==> accounts == accounts[eventId := accounts[eventId]];
        return Returned(false);
      }
      if !Safe(units) { return Raised(RangeError); }
      var position := CreditPositionOf(eventId, now);
      if position.None? { return Raised(RangeError); }
      if position.value.available < units { return Raised(InsufficientCredits); }
      var created := CreateHold(accounts[eventId], Hold(batch, Active, units, now + RESERVATION_TTL_MILLISECONDS));
      if created.Aborted? { return Raised(created.failure); }
      if IsReservedElsewhere(accounts, eventId, batch) { return Raised(ConstraintViolated); }
      accounts := accounts[eventId := created.account];
      verdict := Returned(true);
    }

    method Charge(eventId: string, messageId: string, batch: string, units: int) returns (verdict: Verdict)
      modifies this
      ensures eventId !in old(accounts) ==> verdict == Returned(false) && accounts == old(accounts)
      ensures eventId in old(accounts) ==>
                match ChargeSendUsage(old(accounts)[eventId], messageId, batch, units)
                case Done(result, after) => verdict == Returned(result) && accounts == old(accounts)[eventId := after]
                case Aborted(failure) => verdict == Raised(failure) && accounts == old(accounts)
    {
      assert eventId in accounts ==> accounts == accounts[eventId := accounts[eventId]];
      if units <= 0 || eventId !in accounts { return Returned(false); }
      if !Safe(units) { return Raised(RangeError); }
      var account := accounts[eventId];
      if IsCharged(account, messageId) { return Returned(false); }
      var index := HoldIndex(account.holds, batch);
      if index.None? || account.holds[index.value].status != Active { return Returned(false); }
      var hold := account.holds[index.value];
      if hold.units < units { return Returned(false); }
      var charge := ChargeReservation(hold.status, hold.units, units);
      if charge.None? { return Raised(RangeError); }
      var updated := UpdateHold(account, index.value, charge.value.heldUnits, charge.value.status);
      if updated.Aborted? { return Raised(updated.failure); }
      var entry := Entry(SendUsage, -units, MESSAGE_REFERENCE_TYPE, messageId, Some(batch));
      var inserted := InsertEntry(updated.account, entry);
      if inserted.Aborted? { return Raised(inserted.failure); }
      accounts := accounts[eventId := inserted.account];
      verdict := Returned(inserted.result);
    }

    method RefundCharge(eventId: string, messageId: string, batch: string, units: int) returns (verdict: Verdict)
      modifies this
      ensures eventId !in old(accounts) ==> verdict == Returned(false) && accounts == old(accounts)
      ensures eventId in old(accounts) ==>
                match RefundSendUsage(old(accounts)[eventId], messageId, batch, units)
                case Done(result, after) => verdict == Returned(result) && accounts == old(accounts)[eventId := after]
                case Aborted(failure) => verdict == Raised(failure) && accounts == old(accounts)
    {
      assert eventId in accounts ==> accounts == accounts[eventId := accounts[eventId]];
      if units <= 0 || eventId !in accounts { return Returned(false); }
      var account := accounts[eventId];
      if !IsCharged(account, messageId) { return Returned(false); }
      if !Safe(units) { return Raised(RangeError); }
      var entry := Entry(EntryType.Refund, units, MESSAGE_REFERENCE_TYPE, messageId, Some(batch));
      var inserted := InsertEntry(account, entry);
      if inserted.Aborted? { return Raised(inserted.failure); }
      accounts := accounts[eventId := inserted.account];
      verdict := Returned(inserted.result);
    }

    method Settle(eventId: string, batch: string) returns (verdict: Verdict)
      modifies this
      ensures eventId !in old(accounts) ==> verdict == Returned(false) && accounts == old(accounts)
      ensures eventId in old(accounts) ==>
                match SettleSendBatchReservation(old(accounts)[eventId], batch)
                case Done(result, after) => verdict == Returned(result) && accounts == old(accounts)[eventId := after]
                case Aborted(failure) => verdict == Raised(failure) && accounts == old(accounts)
    {
      assert eventId in accounts ==> accounts == accounts[eventId := accounts[eventId]];
      if eventId !in accounts { return Returned(false); }
      var account := accounts[eventId];
      var index := HoldIndex(account.holds, batch);
      if index.None? || account.holds[index.value].status != Active { return Returned(false); }
      var settled := UpdateHold(account, index.value, account.holds[index.value].units, Released);
      if settled.Aborted? { return Raised(settled.failure); }
      accounts := accounts[eventId := settled.account];
      verdict := Returned(true);
    }
  }
}
