/** Where a batch's units go over a run, and why replaying a transaction never moves them twice. */
module CreditConservation {
  import opened Basics
  import opened CreditDomain
  import opened CreditLedger
  import opened CreditRuns
  import opened CreditReservations

  function ChargedUnits(batch: string): Entry -> int {
    (entry: Entry) => if entry.entryType == SendUsage && entry.batch == Some(batch) then -entry.units else 0
  }

  /** All SEND_USAGE charged to the batch. */
  function Charged(account: Account, batch: string): int {
    Sum(account.entries, ChargedUnits(batch))
  }

  predicate HasHold(holds: seq<Hold>, batch: string) {
    exists i :: 0 <= i < |holds| && holds[i].batch == batch
  }

  /** The units of the reservation as the run first created it; zero if it never did. */
  function FirstReserved(ops: seq<Op>, batch: string): int {
    if ops == [] then 0
    else
      var front, last := ops[..|ops| - 1], ops[|ops| - 1];
      if HasHold(Run(front).holds, batch) then FirstReserved(front, batch)
      else if last.Reserve? && HasHold(Run(ops).holds, batch) then last.units
      else 0
  }

  /** What a reservation still holds for its batch: a consumed row keeps its last units, but holds nothing. */
  function Held(hold: Hold): int {
    if hold.status == Consumed then 0 else hold.units
  }

  ghost predicate Conserved(account: Account, reserved: string -> int) {
    && (forall h :: h in account.holds ==> Charged(account, h.batch) + Held(h) == reserved(h.batch))
    && (forall b :: !HasHold(account.holds, b) ==> Charged(account, b) == 0)
  }

  lemma ChargedAfter(entries: seq<Entry>, entry: Entry, batch: string)
    ensures Sum(entries + [entry], ChargedUnits(batch)) ==
            Sum(entries, ChargedUnits(batch)) + ChargedUnits(batch)(entry)
  {
    SumAppend(entries, entry, ChargedUnits(batch));
  }

  /**
   * Rewriting one hold and charging `moved` units to its batch shifts what that batch adds up to by the
   * difference, and no other batch.
   */
  lemma MovingUnits(
    account: Account, reserved: string -> int, reserved': string -> int, i: nat, hold: Hold, after: Account, moved: int)
    requires Sound(account) && Conserved(account, reserved) && i < |account.holds|
    requires after.holds == account.holds[i := hold] && hold.batch == account.holds[i].batch
    requires forall b :: Charged(after, b) == Charged(account, b) + if b == hold.batch then moved else 0
    requires forall b :: HasHold(account.holds, b) ==>
               reserved'(b) == reserved(b) + if b == hold.batch then moved + Held(hold) - Held(account.holds[i]) else 0
    ensures Conserved(after, reserved')
  {
    forall k | 0 <= k < |after.holds|
      ensures Charged(after, after.holds[k].batch) + Held(after.holds[k]) == reserved'(after.holds[k].batch)
    {
      assert account.holds[k] in account.holds && HasHold(account.holds, account.holds[k].batch);
    }
    forall b | !HasHold(after.holds, b) ensures Charged(after, b) == 0 {
      assert after.holds[i].batch != b;
      forall k | 0 <= k < |account.holds| ensures account.holds[k].batch != b {
        assert after.holds[k].batch != b;
      }
    }
  }

  lemma ChargeConserves(account: Account, reserved: string -> int, op: Op)
    requires Sound(account) && Conserved(account, reserved) && op.Charge?
    ensures Conserved(Step(account, op), reserved)
  {
    var after := Step(account, op);
    if after != account {
      var i := HoldIndex(account.holds, op.batch).value;
      var charge := ChargeReservation(Active, account.holds[i].units, op.units).value;
      var hold := account.holds[i].(units := charge.heldUnits, status := charge.status);
      var entry := Entry(SendUsage, -op.units, MESSAGE_REFERENCE_TYPE, op.messageId, Some(op.batch));
      assert after == Account(account.entries + [entry], account.holds[i := hold]);
      forall b { ChargedAfter(account.entries, entry, b); }
      MovingUnits(account, reserved, reserved, i, hold, after, op.units);
    }
  }

  lemma SettleConserves(account: Account, reserved: string -> int, op: Op)
    requires Sound(account) && Conserved(account, reserved) && op.Settle?
    ensures Conserved(Step(account, op), reserved)
  {
    var after := Step(account, op);
    if after != account {
      var i := HoldIndex(account.holds, op.batch).value;
      var hold := account.holds[i].(status := Released);
      assert after == Account(account.entries, account.holds[i := hold]);
      MovingUnits(account, reserved, reserved, i, hold, after, 0);
    }
  }

  lemma OtherEntriesConserve(account: Account, reserved: string -> int, op: Op)
    requires Conserved(account, reserved) && (op.Refund? || op.Record?)
    ensures Conserved(Step(account, op), reserved)
  {
    var after := Step(account, op);
    if after != account {
      var entry := after.entries[|account.entries|];
      assert after == Account(account.entries + [entry], account.holds);
      forall b ensures Charged(after, b) == Charged(account, b) {
        ChargedAfter(account.entries, entry, b);
      }
    }
  }

  lemma ReserveConserves(account: Account, reserved: string -> int, reserved': string -> int, op: Op)
    requires Sound(account) && Conserved(account, reserved) && op.Reserve?
    requires forall b :: HasHold(account.holds, b) ==> reserved'(b) == reserved(b)
    requires Step(account, op) != account ==> reserved'(op.batch) == op.units
    ensures Conserved(Step(account, op), reserved')
  {
    var after := Step(account, op);
    if after != account {
      var hold := Hold(op.batch, Active, op.units, op.now + RESERVATION_TTL_MILLISECONDS);
      assert after == Account(account.entries, account.holds + [hold]);
      forall k | 0 <= k < |after.holds|
        ensures Charged(after, after.holds[k].batch) + Held(after.holds[k]) == reserved'(after.holds[k].batch)
      {
        if k < |account.holds| {
          assert after.holds[k] == account.holds[k] && account.holds[k] in account.holds;
          assert HasHold(account.holds, account.holds[k].batch);
        } else {
          assert !HasHold(account.holds, op.batch);
        }
      }
      forall b | !HasHold(after.holds, b) ensures Charged(after, b) == 0 {
        assert forall k :: 0 <= k < |account.holds| ==> after.holds[k].batch == account.holds[k].batch;
        assert !HasHold(account.holds, b);
      }
    } else {
      forall h | h in account.holds ensures reserved'(h.batch) == reserved(h.batch) {
        assert HasHold(account.holds, h.batch);
      }
    }
  }

  function FirstReservedIn(ops: seq<Op>): string -> int {
    (batch: string) => FirstReserved(ops, batch)
  }

  lemma HoldsAppearByReserving(account: Account, op: Op, batch: string)
    ensures HasHold(account.holds, batch) ==> HasHold(Step(account, op).holds, batch)
    ensures HasHold(Step(account, op).holds, batch) && !HasHold(account.holds, batch) ==>
              op.Reserve? && op.batch == batch && Step(account, op) != account
  {
    var after := Step(account, op);
    assert forall i :: 0 <= i < |account.holds| ==> after.holds[i].batch == account.holds[i].batch;
  }

  lemma {:induction false} EveryRunConserves(ops: seq<Op>)
    ensures Conserved(Run(ops), FirstReservedIn(ops))
  {
    if ops != [] {
      var front, op := ops[..|ops| - 1], ops[|ops| - 1];
      EveryRunIsSound(front);
      EveryRunConserves(front);
      var account, reserved, reserved' := Run(front), FirstReservedIn(front), FirstReservedIn(ops);
      forall b | HasHold(account.holds, b) ensures reserved'(b) == reserved(b) {
        HoldsAppearByReserving(account, op, b);
      }
      match op
      case Reserve(batch, units, now, taken) =>
        if Step(account, op) != account {
          var after := Step(account, op);
          assert after.holds[|account.holds|].batch == batch;
        }
        ReserveConserves(account, reserved, reserved', op);
      case Charge(_, _, _) =>
        ChargeConserves(account, reserved, op);
        SameReservationsConserve(account, reserved, reserved', op);
      case Settle(_) =>
        SettleConserves(account, reserved, op);
        SameReservationsConserve(account, reserved, reserved', op);
      case _ =>
        OtherEntriesConserve(account, reserved, op);
        SameReservationsConserve(account, reserved, reserved', op);
    }
  }

  lemma SameReservationsConserve(account: Account, reserved: string -> int, reserved': string -> int, op: Op)
    requires Conserved(Step(account, op), reserved) && !op.Reserve?
    requires forall b :: HasHold(account.holds, b) ==> reserved'(b) == reserved(b)
    ensures Conserved(Step(account, op), reserved')
  {
    var after := Step(account, op);
    forall h | h in after.holds ensures reserved'(h.batch) == reserved(h.batch) {
      HoldsAppearByReserving(account, op, h.batch);
    }
  }

  /**
   * In every reachable state, what was charged to a batch and what its reservation still holds add up to
   * what was first reserved, where a consumed reservation holds nothing although its row keeps the last
   * units. Adding up the raw column therefore gives the first amount exactly when the row is not consumed,
   * and the row is consumed exactly when the whole reservation has been charged.
   */
  lemma BatchUnitsAreConserved(ops: seq<Op>, h: Hold)
    requires h in Run(ops).holds
    ensures Charged(Run(ops), h.batch) + Held(h) == FirstReserved(ops, h.batch)
    ensures h.units + Charged(Run(ops), h.batch) == FirstReserved(ops, h.batch) <==> h.status != Consumed
    ensures h.status == Consumed <==> Charged(Run(ops), h.batch) == FirstReserved(ops, h.batch)
  {
    EveryRunIsSound(ops);
    EveryRunConserves(ops);
    assert FirstReservedIn(ops)(h.batch) == FirstReserved(ops, h.batch);
  }

  /** A reservation charged in one go: its consumed row keeps its units, which are counted as charged as well. */
  lemma ConsumedRowExample(units: int)
    requires 0 < units && FitsInteger(units)
    ensures var ops := [Purchased(units), Reserve("b", units, 0, false)] + [Charge("m", "b", units)];
            && Run(ops).holds == [Hold("b", Consumed, units, RESERVATION_TTL_MILLISECONDS)]
            && FirstReserved(ops, "b") == Charged(Run(ops), "b") == units
            && Run(ops).holds[0].units + Charged(Run(ops), "b") == 2 * units
  {
    var before := [Purchased(units), Reserve("b", units, 0, false)];
    var charge := Charge("m", "b", units);
    var ops := before + [charge];
    var account := Run(before);
    PurchaseThenReserve(units, "b", units);
    EveryRunIsSound(before);
    var hold := Hold("b", Active, units, RESERVATION_TTL_MILLISECONDS);
    assert account == Account([PurchaseEntry(units)], [hold]);
    ChargingItAll(account, hold, units);
    RunOneMore(before, charge);
    var after := Run(ops);
    assert after.holds[0] in after.holds;
    BatchUnitsAreConserved(ops, after.holds[0]);
    FirstReservedExample(units);
  }

  lemma ChargingItAll(account: Account, hold: Hold, units: int)
    requires Sound(account) && account == Account([PurchaseEntry(units)], [hold])
    requires hold == Hold("b", Active, units, RESERVATION_TTL_MILLISECONDS)
    ensures Step(account, Charge("m", "b", units)).holds == [hold.(status := Consumed)]
  {
    assert HoldIndex(account.holds, "b") == Some(0) && account.holds[0] in account.holds;
    assert !IsCharged(account, "m");
    SuccessfulCharge(account, 0, "m", "b", units, 0);
    assert account.holds[0 := hold.(status := Consumed)] == [hold.(status := Consumed)];
  }

  lemma FirstReservedExample(units: int)
    requires 0 < units && FitsInteger(units)
    ensures FirstReserved([Purchased(units), Reserve("b", units, 0, false)] + [Charge("m", "b", units)], "b") == units
  {
    var before := [Purchased(units), Reserve("b", units, 0, false)];
    var ops := before + [Charge("m", "b", units)];
    PurchaseAlone(units);
    PurchaseThenReserve(units, "b", units);
    assert ops[..|ops| - 1] == before && before[..1] == [Purchased(units)];
    assert [] + [Purchased(units)] == [Purchased(units)];
    RunOneMore([], Purchased(units));
    assert Run(before).holds[0].batch == "b";
    assert HasHold(Run(before).holds, "b") && !HasHold(Run([Purchased(units)]).holds, "b");
    assert FirstReserved(before, "b") == units;
  }

  // ----- Once per message -----

  function IsEntryOf(entryType: EntryType, messageId: string): Entry -> int {
    (entry: Entry) =>
      if entry.entryType == entryType && entry.refType == MESSAGE_REFERENCE_TYPE && entry.refId == messageId
      then 1 else 0
  }

  lemma {:induction false} UniqueEntryCounts(entries: seq<Entry>, entryType: EntryType, messageId: string)
    requires UniqueReferences(entries)
    ensures Sum(entries, IsEntryOf(entryType, messageId)) ==
            if HasEntry(entries, entryType, MESSAGE_REFERENCE_TYPE, messageId) then 1 else 0
  {
    if entries != [] {
      var n := |entries| - 1;
      UniqueEntryCounts(entries[..n], entryType, messageId);
      if IsEntryOf(entryType, messageId)(entries[n]) == 1 {
        assert HasEntry(entries, entryType, MESSAGE_REFERENCE_TYPE, messageId);
      } else if HasEntry(entries, entryType, MESSAGE_REFERENCE_TYPE, messageId) {
        var i :| 0 <= i < |entries| && IsEntryOf(entryType, messageId)(entries[i]) == 1;
        assert entries[..n][i] == entries[i];
      }
    }
  }

  /** Each message has at most one charge, at most one refund, and no refund without its charge. */
  lemma MessageIsChargedAndRefundedAtMostOnce(ops: seq<Op>, messageId: string)
    ensures var entries := Run(ops).entries;
            0 <= Sum(entries, IsEntryOf(EntryType.Refund, messageId))
              <= Sum(entries, IsEntryOf(SendUsage, messageId)) <= 1
  {
    EveryRunIsSound(ops);
    var entries := Run(ops).entries;
    UniqueEntryCounts(entries, EntryType.Refund, messageId);
    UniqueEntryCounts(entries, SendUsage, messageId);
    if HasEntry(entries, EntryType.Refund, MESSAGE_REFERENCE_TYPE, messageId) {
      ChargeBeforeRefund(entries, messageId);
    }
  }

  lemma ChargeBeforeRefund(entries: seq<Entry>, messageId: string)
    requires RefundsFollowCharges(entries) && HasEntry(entries, EntryType.Refund, MESSAGE_REFERENCE_TYPE, messageId)
    ensures HasEntry(entries, SendUsage, MESSAGE_REFERENCE_TYPE, messageId)
  {
    var j :| 0 <= j < |entries| && entries[j].entryType == EntryType.Refund &&
             entries[j].refType == MESSAGE_REFERENCE_TYPE && entries[j].refId == messageId;
    EntriesStay(entries[..j], entries, SendUsage, MESSAGE_REFERENCE_TYPE, messageId);
  }

  // ----- Nothing is rewritten, nothing is repeated -----

  /** Later transactions only append entries, and leave a reservation that is no longer active as it is. */
  ghost predicate Extends(before: Account, after: Account) {
    && before.entries <= after.entries
    && |before.holds| <= |after.holds|
    && (forall i :: 0 <= i < |before.holds| ==>
          && after.holds[i].batch == before.holds[i].batch
          && after.holds[i].units <= before.holds[i].units
          && (before.holds[i].status != Active ==> after.holds[i] == before.holds[i]))
  }

  lemma StepExtends(account: Account, op: Op)
    ensures Extends(account, Step(account, op))
  {
    var after := Step(account, op);
    assert account.entries <= after.entries;
    assert |account.holds| <= |after.holds|;
  }

  lemma ExtendsTransitive(a: Account, b: Account, c: Account)
    requires Extends(a, b) && Extends(b, c)
    ensures Extends(a, c)
  {
    assert c.entries[..|b.entries|] == b.entries;
  }

  lemma RunOneMore(ops: seq<Op>, op: Op)
    ensures Run(ops + [op]) == Step(Run(ops), op)
  {
    assert (ops + [op])[..|ops|] == ops;
  }

  lemma {:induction false} HistoryIsNeverRewritten(ops: seq<Op>, more: seq<Op>)
    ensures Extends(Run(ops), Run(ops + more))
  {
    if more == [] {
      assert ops + more == ops;
    } else {
      var n := |more| - 1;
      var until := ops + more[..n];
      HistoryIsNeverRewritten(ops, more[..n]);
      RunOneMore(until, more[n]);
      assert ops + more == until + [more[n]];
      StepExtends(Run(until), more[n]);
      ExtendsTransitive(Run(ops), Run(until), Run(ops + more));
    }
  }

  lemma EntriesStay(before: seq<Entry>, after: seq<Entry>, entryType: EntryType, refType: string, refId: string)
    requires before <= after && HasEntry(before, entryType, refType, refId)
    ensures HasEntry(after, entryType, refType, refId)
  {
    var i :| 0 <= i < |before| && before[i].entryType == entryType &&
             before[i].refType == refType && before[i].refId == refId;
    assert after[i] == before[i];
  }

  /** The rows a successful charge, refund or settlement leaves behind. */
  lemma EffectOf(account: Account, op: Op)
    requires Attempt(account, op).Done? && Attempt(account, op).result
    ensures op.Charge? ==> IsCharged(Step(account, op), op.messageId)
    ensures op.Refund? ==> IsCharged(Step(account, op), op.messageId) &&
                           HasEntry(Step(account, op).entries, EntryType.Refund, MESSAGE_REFERENCE_TYPE, op.messageId)
    ensures op.Settle? ==> var i := HoldIndex(account.holds, op.batch);
                           i.Some? && Step(account, op).holds[i.value].status == Released
  {
    var after := Step(account, op);
    if op.Charge? || op.Refund? {
      assert after.entries[|after.entries| - 1].refId == op.messageId;
    }
    if op.Refund? { EntriesStay(account.entries, after.entries, SendUsage, MESSAGE_REFERENCE_TYPE, op.messageId); }
  }

  /** A charge, refund or settlement that has taken effect is a no-op however much later it is delivered again. */
  lemma RedeliveryIsNoOp(ops: seq<Op>, op: Op, more: seq<Op>)
    requires op.Charge? || op.Refund? || op.Settle?
    requires Attempt(Run(ops), op).Done? && Attempt(Run(ops), op).result
    ensures Attempt(Run(ops + [op] + more), op) == Done(false, Run(ops + [op] + more))
  {
    var before, now := Run(ops + [op]), Run(ops + [op] + more);
    assert (ops + [op])[..|ops|] == ops;
    EffectOf(Run(ops), op);
    EveryRunIsSound(ops + [op] + more);
    HistoryIsNeverRewritten(ops + [op], more);
    match op
    case Charge(messageId, batch, units) =>
      EntriesStay(before.entries, now.entries, SendUsage, MESSAGE_REFERENCE_TYPE, messageId);
    case Refund(messageId, batch, units) =>
      EntriesStay(before.entries, now.entries, EntryType.Refund, MESSAGE_REFERENCE_TYPE, messageId);
      EntriesStay(before.entries, now.entries, SendUsage, MESSAGE_REFERENCE_TYPE, messageId);
    case Settle(batch) =>
      var i := HoldIndex(Run(ops).holds, batch).value;
      assert now.holds[i] == before.holds[i];
      assert HoldIndex(now.holds, batch) == Some(i);
  }
}
