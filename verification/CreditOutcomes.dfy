/**
 * What each transaction does to the rows of a reachable account, case by case, with every amount, reference
 * and status spelled out.
 */
module CreditOutcomes {
  import opened Basics
  import opened CreditDomain
  import opened CreditLedger
  import opened CreditRuns
  import opened CreditReservations

  /** The ledger holds an entry of this type for the message. */
  predicate HasMessageEntry(account: Account, entryType: EntryType, messageId: string) {
    exists e :: e in account.entries && e.entryType == entryType && e.refType == "Message" && e.refId == messageId
  }

  lemma EntryIsMessageEntry(account: Account, entryType: EntryType, messageId: string)
    ensures HasMessageEntry(account, entryType, messageId) <==>
            HasEntry(account.entries, entryType, MESSAGE_REFERENCE_TYPE, messageId)
  {
    if e :| e in account.entries && e.entryType == entryType && e.refType == "Message" && e.refId == messageId {
      var i :| 0 <= i < |account.entries| && account.entries[i] == e;
      assert HasEntry(account.entries, entryType, MESSAGE_REFERENCE_TYPE, messageId);
    }
  }

  /** The batch has a reservation, in whatever status. */
  predicate IsReserved(account: Account, batch: string) {
    exists h :: h in account.holds && h.batch == batch
  }

  lemma ReservedHasIndex(account: Account, batch: string)
    ensures IsReserved(account, batch) <==> HoldIndex(account.holds, batch).Some?
  {
    var index := HoldIndex(account.holds, batch);
    if index.Some? { assert account.holds[index.value] in account.holds; }
  }

  /**
   * Availability: no units are always available, and otherwise the answer compares them with the balance less
   * the live holds, for yes and for no.
   */
  lemma AvailabilityOutcome(account: Account, units: int, now: int)
    requires Sound(account) && Safe(Volume(account))
    ensures HasAvailableCredits(account, units, now) == Some(units <= 0 || units <= LiveAvailable(account, now))
  {
    PositionNeverRaises(account, now);
  }

  /** Each way a reservation can end, and the hold it leaves: active, for all its units, for twenty-four hours. */
  lemma ReserveOutcome(account: Account, batch: string, units: int, now: int, taken: bool)
    requires Sound(account) && Safe(Volume(account))
    ensures ReserveSendBatch(account, batch, units, now, taken) ==
            if units <= 0 then Done(false, account)
            else if units > 9_007_199_254_740_991 then Aborted(RangeError)
            else if units > LiveAvailable(account, now) then Aborted(InsufficientCredits)
            else if units > GuardAvailable(account) then Aborted(GuardRejected)
            else if units > 2_147_483_647 || IsReserved(account, batch) || taken then Aborted(ConstraintViolated)
            else Done(true, Account(account.entries, account.holds + [Hold(batch, Active, units, now + 86_400_000)]))
  {
    PositionNeverRaises(account, now);
    ReservedHasIndex(account, batch);
  }

  /** A charge that finds nothing to do, or an amount that cannot be meant. */
  lemma ChargeWithoutEffect(account: Account, messageId: string, batch: string, units: int)
    ensures units <= 0 ==> ChargeSendUsage(account, messageId, batch, units) == Done(false, account)
    ensures units > 9_007_199_254_740_991 ==> ChargeSendUsage(account, messageId, batch, units) == Aborted(RangeError)
    ensures 0 < units <= 9_007_199_254_740_991 && HasMessageEntry(account, SendUsage, messageId) ==>
              ChargeSendUsage(account, messageId, batch, units) == Done(false, account)
    ensures 0 < units <= 9_007_199_254_740_991 &&
            (forall h :: h in account.holds && h.batch == batch ==> h.status != Active || h.units < units) ==>
              ChargeSendUsage(account, messageId, batch, units) == Done(false, account)
  {
    EntryIsMessageEntry(account, SendUsage, messageId);
    var index := HoldIndex(account.holds, batch);
    if index.Some? { assert account.holds[index.value] in account.holds; }
  }

  /** A charge that the batch's reservation covers: one entry more, and the reservation drawn down or consumed. */
  lemma ChargeWithEffect(account: Account, messageId: string, i: nat, units: int)
    requires Sound(account) && i < |account.holds| && account.holds[i].status == Active
    requires 0 < units <= account.holds[i].units && !HasMessageEntry(account, SendUsage, messageId)
    ensures var hold := account.holds[i];
            ChargeSendUsage(account, messageId, hold.batch, units) ==
            Done(true, Account(
              account.entries + [Entry(SendUsage, -units, "Message", messageId, Some(hold.batch))],
              account.holds[i := if units == hold.units
                                 then Hold(hold.batch, Consumed, hold.units, hold.expiresAt)
                                 else Hold(hold.batch, Active, hold.units - units, hold.expiresAt)]))
  {
    EntryIsMessageEntry(account, SendUsage, messageId);
    assert account.holds[i] in account.holds;
    assert HoldIndex(account.holds, account.holds[i].batch) == Some(i);
    SuccessfulCharge(account, i, messageId, account.holds[i].batch, units, 0);
  }

  /** A refund takes one entry, for a message that was charged and not refunded yet. */
  lemma RefundOutcome(account: Account, messageId: string, batch: string, units: int)
    requires Sound(account)
    ensures RefundSendUsage(account, messageId, batch, units) ==
            if units <= 0 || !HasMessageEntry(account, SendUsage, messageId) then Done(false, account)
            else if units > 9_007_199_254_740_991 then Aborted(RangeError)
            else if units > 2_147_483_647 then Aborted(ConstraintViolated)
            else if HasMessageEntry(account, EntryType.Refund, messageId) then Done(false, account)
            else Done(true, account.(
              entries := account.entries + [Entry(EntryType.Refund, units, "Message", messageId, Some(batch))]))
  {
    EntryIsMessageEntry(account, SendUsage, messageId);
    EntryIsMessageEntry(account, EntryType.Refund, messageId);
  }

  /** A settlement releases the batch's reservation if it is active, units and all, and otherwise does nothing. */
  lemma SettleOutcome(account: Account, batch: string)
    requires Sound(account)
    ensures (forall h :: h in account.holds && h.batch == batch ==> h.status != Active) ==>
              SettleSendBatchReservation(account, batch) == Done(false, account)
    ensures forall i :: 0 <= i < |account.holds| && account.holds[i].batch == batch &&
                        account.holds[i].status == Active ==>
              SettleSendBatchReservation(account, batch) ==
              Done(true, account.(holds := account.holds[i := account.holds[i].(status := Released)]))
  {
    var index := HoldIndex(account.holds, batch);
    if index.Some? { assert account.holds[index.value] in account.holds; }
    forall i | 0 <= i < |account.holds| && account.holds[i].batch == batch && account.holds[i].status == Active
      ensures SettleSendBatchReservation(account, batch) ==
              Done(true, account.(holds := account.holds[i := account.holds[i].(status := Released)]))
    {
      assert account.holds[i] in account.holds && index == Some(i);
    }
  }

  /** Purchases and bonuses add units, expiries take them, adjustments do either; none below the active holds. */
  lemma RecordOutcome(account: Account, entryType: EntryType, units: int, refType: string, refId: string)
    requires Sound(account) && entryType in {Purchase, Bonus, ManualAdjustment, Expiry}
    ensures var recorded := exists e :: e in account.entries && e.entryType == entryType &&
                                        e.refType == refType && e.refId == refId;
            Attempt(account, Op.Record(entryType, units, refType, refId)) ==
            if GuardAvailable(account) + units < 0 then Aborted(GuardRejected)
            else if !(-2_147_483_648 <= units <= 2_147_483_647) || units == 0 ||
                    (entryType in {Purchase, Bonus} && units < 0) || (entryType == Expiry && units > 0)
            then Aborted(ConstraintViolated)
            else if recorded then Done(false, account)
            else Done(true, account.(entries := account.entries + [Entry(entryType, units, refType, refId, None)]))
  {
    if e :| e in account.entries && e.entryType == entryType && e.refType == refType && e.refId == refId {
      var i :| 0 <= i < |account.entries| && account.entries[i] == e;
      assert HasEntry(account.entries, entryType, refType, refId);
    }
  }
}
