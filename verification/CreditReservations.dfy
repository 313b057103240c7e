/** When a reservation is granted, and how far the reported availability can be trusted. */
module CreditReservations {
  import opened Basics
  import opened CreditDomain
  import opened CreditLedger
  import opened CreditRuns

  // ----- The position is always computed while the ledger stays within the safe integers -----

  function AbsoluteUnits(entry: Entry): int { if entry.units < 0 then -entry.units else entry.units }

  /** Everything ever recorded and held, in absolute value. */
  function Volume(account: Account): int {
    Sum(account.entries, AbsoluteUnits) + Sum(account.holds, ActiveHoldUnits)
  }

  lemma {:induction false} GroupHasItsSign(entries: seq<Entry>, entryType: EntryType)
    requires forall e :: e in entries ==> SignOk(e.entryType, e.units)
    ensures Sum(entries, TypeUnits(entryType)) != 0 ==> SignOk(entryType, Sum(entries, TypeUnits(entryType)))
  {
    if entries != [] {
      assert entries[|entries| - 1] in entries;
      GroupHasItsSign(entries[..|entries| - 1], entryType);
    }
  }

  lemma FoldOneMore(lines: seq<Line>, line: Line)
    requires FoldLines(lines).Some? && LineOk(line) && Safe(FoldLines(lines).value + line.units)
    ensures FoldLines(lines + [line]) == Some(FoldLines(lines).value + line.units)
  {
    assert (lines + [line])[..|lines|] == lines;
  }

  lemma GroupedOneMore(entries: seq<Entry>, front: seq<EntryType>, last: EntryType)
    ensures var units, before := Sum(entries, TypeUnits(last)), GroupedLines(entries, front);
            GroupedLines(entries, front + [last]) == if units == 0 then before else before + [Line(last, units)]
  {
    assert (front + [last])[..|front|] == front;
  }

  lemma GroupsAddOneMore(entries: seq<Entry>, front: seq<EntryType>, last: EntryType)
    requires forall e :: e in entries ==> SignOk(e.entryType, e.units)
    requires Safe(Sum(entries, TypeUnits(last)))
    requires Safe(Sum(entries, TypesUnits(front)) + Sum(entries, TypeUnits(last)))
    requires FoldLines(GroupedLines(entries, front)) == Some(Sum(entries, TypesUnits(front)))
    ensures FoldLines(GroupedLines(entries, front + [last])) ==
            Some(Sum(entries, TypesUnits(front)) + Sum(entries, TypeUnits(last)))
  {
    var units := Sum(entries, TypeUnits(last));
    GroupedOneMore(entries, front, last);
    if units != 0 {
      GroupHasItsSign(entries, last);
      FoldOneMore(GroupedLines(entries, front), Line(last, units));
    }
  }

  lemma {:induction false} GroupsAddUpSafely(entries: seq<Entry>, types: seq<EntryType>)
    requires forall e :: e in entries ==> SignOk(e.entryType, e.units)
    requires forall i, j :: 0 <= i < j < |types| ==> types[i] != types[j]
    requires Safe(Sum(entries, AbsoluteUnits))
    ensures FoldLines(GroupedLines(entries, types)) == Some(Sum(entries, TypesUnits(types)))
  {
    if types == [] {
      SumOfZeros(entries);
    } else {
      var n := |types| - 1;
      GroupsAddUpSafely(entries, types[..n]);
      assert types == types[..n] + [types[n]];
      SumSplit(entries, types[..n], types[n]);
      SumBounded(entries, TypeUnits(types[n]), AbsoluteUnits);
      SumBounded(entries, TypesUnits(types), AbsoluteUnits);
      GroupsAddOneMore(entries, types[..n], types[n]);
    }
  }

  lemma FoldOneMoreHold(lines: seq<HoldLine>, line: HoldLine, now: int)
    requires FoldHolds(lines, now).Some? && 0 < line.units && Safe(line.units)
    requires IsLive(line, now) ==> Safe(FoldHolds(lines, now).value + line.units)
    ensures FoldHolds(lines + [line], now) ==
            Some(FoldHolds(lines, now).value + if IsLive(line, now) then line.units else 0)
  {
    assert (lines + [line])[..|lines|] == lines;
  }

  lemma {:induction false} HoldsAddUpSafely(holds: seq<Hold>, now: int)
    requires forall h :: h in holds ==> 0 < h.units && FitsInteger(h.units)
    requires Safe(Sum(holds, ActiveHoldUnits))
    ensures FoldHolds(ActiveLines(holds), now) == Some(Sum(holds, LiveHoldUnits(now)))
    ensures 0 <= Sum(holds, LiveHoldUnits(now)) <= Sum(holds, ActiveHoldUnits)
  {
    if holds != [] {
      var n := |holds| - 1;
      assert holds[n] in holds;
      SumBounded(holds[..n], ActiveHoldUnits, ActiveHoldUnits);
      HoldsAddUpSafely(holds[..n], now);
      if holds[n].status == Active {
        FoldOneMoreHold(ActiveLines(holds[..n]), HoldLine(Active, holds[n].units, holds[n].expiresAt), now);
      }
    }
  }

  /** In a reachable account within the safe integers, computing the position never raises. */
  lemma PositionNeverRaises(account: Account, now: int)
    requires Sound(account) && Safe(Volume(account))
    ensures PositionAt(account, now).Some?
    ensures PositionAt(account, now).value.available == LiveAvailable(account, now)
  {
    SumBounded(account.entries, EntryUnits, AbsoluteUnits);
    SumBounded(account.entries, AbsoluteUnits, AbsoluteUnits);
    SumBounded(account.holds, ActiveHoldUnits, ActiveHoldUnits);
    GroupsAddUpSafely(account.entries, ENTRY_TYPES);
    HoldsAddUpSafely(account.holds, now);
    AllTypesKeepTotal(account.entries);
    assert PositionAt(account, now).Some?;
    PositionIsLiveAvailability(account, now);
  }

  // ----- When a batch gets its hold -----

  /** A hold that has expired but that nobody has settled: the guards count it, the position does not. */
  ghost predicate HasStaleHold(account: Account, now: int) {
    exists h :: h in account.holds && h.status == Active && h.expiresAt <= now
  }

  lemma {:induction false} StaleHoldsOpenAGap(holds: seq<Hold>, now: int)
    requires forall h :: h in holds ==> 0 < h.units
    ensures Sum(holds, LiveHoldUnits(now)) <= Sum(holds, ActiveHoldUnits)
    ensures Sum(holds, LiveHoldUnits(now)) == Sum(holds, ActiveHoldUnits) <==>
            !exists h :: h in holds && h.status == Active && h.expiresAt <= now
  {
    if holds != [] {
      var n := |holds| - 1;
      StaleHoldsOpenAGap(holds[..n], now);
      assert holds == holds[..n] + [holds[n]];
      assert holds[n] in holds;
    }
  }

  /**
   * A batch is granted its hold exactly when the balance covers it on top of every active hold, expired
   * ones included. When the reported availability alone covers it, the guard aborts the transaction.
   */
  lemma ReserveExactly(account: Account, batch: string, units: int, now: int, taken: bool)
    requires Sound(account) && Safe(Volume(account))
    ensures var outcome := ReserveSendBatch(account, batch, units, now, taken);
            && (outcome.Done? && outcome.result <==>
                  0 < units <= GuardAvailable(account) && FitsInteger(units) &&
                  HoldIndex(account.holds, batch).None? && !taken)
            && (outcome.Done? && outcome.result ==>
                  && GuardAvailable(outcome.account) == GuardAvailable(account) - units
                  && LiveAvailable(outcome.account, now) == LiveAvailable(account, now) - units)
            && (outcome == Aborted(InsufficientCredits) <==>
                  0 < units && Safe(units) && LiveAvailable(account, now) < units)
            && (outcome == Aborted(GuardRejected) <==>
                  0 < units && Safe(units) && GuardAvailable(account) < units <= LiveAvailable(account, now))
  {
    PositionNeverRaises(account, now);
    GuardIsStricter(account, now);
    var hold := Hold(batch, Active, units, now + RESERVATION_TTL_MILLISECONDS);
    if CreateHold(account, hold).Done? { CreateHoldEffect(account, hold, now); }
  }

  /**
   * A positive answer of HasAvailableCredits can be relied on, for every amount, exactly when no
   * expired hold is still active.
   */
  lemma AvailabilityAnswerIsReliable(account: Account, now: int)
    requires Sound(account) && Safe(Volume(account))
    ensures (forall units :: 0 < units && HasAvailableCredits(account, units, now) == Some(true) ==>
               units <= GuardAvailable(account))
            <==> !HasStaleHold(account, now)
  {
    PositionNeverRaises(account, now);
    StaleHoldsOpenAGap(account.holds, now);
    if HasStaleHold(account, now) {
      assert HasAvailableCredits(account, LiveAvailable(account, now), now) == Some(true);
    }
  }

  function PurchaseEntry(units: int): Entry {
    Entry(Purchase, units, "Payment", "p", None)
  }

  function Purchased(units: int): Op {
    Record(Purchase, units, "Payment", "p")
  }

  lemma PurchaseAlone(total: int)
    requires 0 < total && FitsInteger(total)
    ensures Step(Account([], []), Purchased(total)) == Account([PurchaseEntry(total)], [])
    ensures Sum([PurchaseEntry(total)], EntryUnits) == total == Sum([PurchaseEntry(total)], AbsoluteUnits)
  {
    SumAppend([], PurchaseEntry(total), EntryUnits);
    SumAppend([], PurchaseEntry(total), AbsoluteUnits);
    assert [] + [PurchaseEntry(total)] == [PurchaseEntry(total)];
  }

  /** A purchase followed by a reservation it covers. */
  lemma PurchaseThenReserve(total: int, batch: string, units: int)
    requires 0 < units <= total && FitsInteger(total)
    ensures var account := Account([PurchaseEntry(total)], [Hold(batch, Active, units, RESERVATION_TTL_MILLISECONDS)]);
            && Run([Purchased(total), Reserve(batch, units, 0, false)]) == account
            && Step(Account([PurchaseEntry(total)], []), Reserve(batch, units, 0, false)) == account
            && GuardAvailable(account) == total - units
            && Volume(account) == total + units
            && LiveAvailable(account, RESERVATION_TTL_MILLISECONDS) == total
  {
    var ops := [Purchased(total), Reserve(batch, units, 0, false)];
    var bought := Account([PurchaseEntry(total)], []);
    var hold := Hold(batch, Active, units, RESERVATION_TTL_MILLISECONDS);
    PurchaseAlone(total);
    assert ops[..1] == [Purchased(total)] && ops[..1][..0] == [];
    assert Run([]) == Account([], []);
    assert Run(ops[..1]) == bought;
    EveryRunIsSound(ops[..1]);
    ReserveExactly(bought, batch, units, 0, false);
    assert [] + [hold] == [hold];
    SumAppend([], hold, ActiveHoldUnits);
    SumAppend([], hold, LiveHoldUnits(RESERVATION_TTL_MILLISECONDS));
  }

  /** Ten units bought, six held for a batch that is never settled: a day later seven look free but are refused. */
  lemma StaleHoldExample()
    ensures var account := Run([Purchased(10), Reserve("old", 6, 0, false)]);
            var later := RESERVATION_TTL_MILLISECONDS;
            && HasAvailableCredits(account, 7, later) == Some(true)
            && ReserveSendBatch(account, "new", 7, later, false) == Aborted(GuardRejected)
  {
    var later := RESERVATION_TTL_MILLISECONDS;
    PurchaseThenReserve(10, "old", 6);
    var account := Run([Purchased(10), Reserve("old", 6, 0, false)]);
    EveryRunIsSound([Purchased(10), Reserve("old", 6, 0, false)]);
    PositionNeverRaises(account, later);
    ReserveExactly(account, "new", 7, later, false);
  }
}
