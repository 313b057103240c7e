/**
 * The pure credit arithmetic of packages/domain/src/credits.ts: sign rules, safe-integer
 * addition, the credit position, and how a charge draws a reservation down.
 */
module CreditDomain {
  import opened Basics

  const MAX_SAFE_INTEGER := 0x1F_FFFF_FFFF_FFFF

  datatype EntryType = Purchase | Bonus | SendUsage | Refund | ManualAdjustment | Expiry
  datatype Status = Active | Consumed | Released | Expired
  datatype Line = Line(entryType: EntryType, units: int)
  datatype HoldLine = HoldLine(status: Status, units: int, expiresAt: int)
  datatype CreditPosition = CreditPosition(balance: int, reserved: int, available: int, activeCount: int)
  datatype ReservationCharge = ReservationCharge(heldUnits: int, status: Status)

  predicate Safe(n: int) {
    -MAX_SAFE_INTEGER <= n <= MAX_SAFE_INTEGER
  }

  /** The sign convention, shared with the check constraint on the ledger table. */
  predicate SignOk(entryType: EntryType, units: int) {
    match entryType
    case Purchase | Bonus | Refund => units > 0
    case SendUsage | Expiry => units < 0
    case ManualAdjustment => units != 0
  }

  /** `None` stands for the RangeError that an unsafe total raises. */
  function AddSafe(left: int, right: int): Option<int> {
    if Safe(left + right) then Some(left + right) else None
  }

  predicate LineOk(line: Line) {
    Safe(line.units) && SignOk(line.entryType, line.units)
  }

  predicate IsLive(hold: HoldLine, now: int) {
    hold.status == Active && now < hold.expiresAt
  }

  function LineUnits(line: Line): int { line.units }

  function LiveLineUnits(now: int): HoldLine -> int {
    (hold: HoldLine) => if IsLive(hold, now) then hold.units else 0
  }

  function LiveLineCount(now: int): HoldLine -> int {
    (hold: HoldLine) => if IsLive(hold, now) then 1 else 0
  }

  /** Adds ledger lines up one by one; a bad line or an unsafe running total raises. */
  function FoldLines(lines: seq<Line>): Option<int> {
    if lines == [] then Some(0)
    else
      var last := lines[|lines| - 1];
      var before := FoldLines(lines[..|lines| - 1]);
      if before.None? || !LineOk(last) then None else AddSafe(before.value, last.units)
  }

  /** Adds the live reservations up one by one, checking the units of all of them. */
  function FoldHolds(holds: seq<HoldLine>, now: int): Option<int> {
    if holds == [] then Some(0)
    else
      var last := holds[|holds| - 1];
      var before := FoldHolds(holds[..|holds| - 1], now);
      if before.None? || !Safe(last.units) || last.units <= 0 then None
      else if IsLive(last, now) then AddSafe(before.value, last.units)
      else before
  }

  function PositionOf(lines: seq<Line>, holds: seq<HoldLine>, now: int): Option<CreditPosition> {
    var balance, reserved := FoldLines(lines), FoldHolds(holds, now);
    if balance.None? || reserved.None? then None
    else
      var available := AddSafe(balance.value, -reserved.value);
      if available.None? then None
      else Some(CreditPosition(balance.value, reserved.value, available.value, Sum(holds, LiveLineCount(now))))
  }

  /** What a position that is computed at all means: exact sums, nothing rounded or skipped. */
  lemma {:induction false} PositionIsExact(lines: seq<Line>, holds: seq<HoldLine>, now: int)
    requires PositionOf(lines, holds, now).Some?
    ensures var p := PositionOf(lines, holds, now).value;
            && p.balance == Sum(lines, LineUnits)
            && p.reserved == Sum(holds, LiveLineUnits(now))
            && p.available == p.balance - p.reserved
            && p.activeCount == |LiveAt(holds, now)|
  {
    FoldLinesIsSum(lines);
    FoldHoldsIsSum(holds, now);
    CountsLiveHolds(holds, now);
  }

  /** Where the reservations are that are active and not yet expired. */
  function LiveAt(holds: seq<HoldLine>, now: int): set<int> {
    set i | 0 <= i < |holds| && holds[i].status == Active && now < holds[i].expiresAt
  }

  lemma LiveAtOneMore(holds: seq<HoldLine>, last: HoldLine, now: int)
    ensures LiveAt(holds + [last], now) == LiveAt(holds, now) + if IsLive(last, now) then {|holds|} else {}
    ensures |LiveAt(holds + [last], now)| == |LiveAt(holds, now)| + if IsLive(last, now) then 1 else 0
  {
    assert LiveAt(holds + [last], now) == LiveAt(holds, now) + if IsLive(last, now) then {|holds|} else {};
  }

  lemma {:induction false} CountsLiveHolds(holds: seq<HoldLine>, now: int)
    ensures Sum(holds, LiveLineCount(now)) == |LiveAt(holds, now)|
  {
    if holds == [] {
      assert LiveAt(holds, now) == {};
    } else {
      var n := |holds| - 1;
      CountsLiveHolds(holds[..n], now);
      assert holds == holds[..n] + [holds[n]];
      LiveAtOneMore(holds[..n], holds[n], now);
    }
  }

  /** The i-th line has its type's sign, and it and the running total up to it are safe integers. */
  ghost predicate LineFits(lines: seq<Line>, i: nat)
    requires i < |lines|
  {
    -9_007_199_254_740_991 <= lines[i].units <= 9_007_199_254_740_991 &&
    SignOk(lines[i].entryType, lines[i].units) && Safe(Sum(lines[..i + 1], LineUnits))
  }

  /** The i-th reservation holds a safe positive amount, and the running total up to it is a safe integer. */
  ghost predicate HoldFits(holds: seq<HoldLine>, now: int, i: nat)
    requires i < |holds|
  {
    0 < holds[i].units <= 9_007_199_254_740_991 && Safe(Sum(holds[..i + 1], LiveLineUnits(now)))
  }

  /** The position is computed exactly when every line and reservation fits, and so does the difference. */
  lemma PositionIsComputedExactly(lines: seq<Line>, holds: seq<HoldLine>, now: int)
    ensures PositionOf(lines, holds, now).Some? <==>
            && (forall i :: 0 <= i < |lines| ==> LineFits(lines, i))
            && (forall i :: 0 <= i < |holds| ==> HoldFits(holds, now, i))
            && Safe(Sum(lines, LineUnits) - Sum(holds, LiveLineUnits(now)))
  {
    LinesFoldExactly(lines);
    HoldsFoldExactly(holds, now);
    FoldLinesIsSum(lines);
    FoldHoldsIsSum(holds, now);
  }

  lemma {:induction false} LinesFoldExactly(lines: seq<Line>)
    ensures FoldLines(lines).Some? <==> forall i :: 0 <= i < |lines| ==> LineFits(lines, i)
  {
    if lines != [] {
      var n := |lines| - 1;
      LinesFoldExactly(lines[..n]);
      FoldLinesIsSum(lines[..n]);
      assert lines[..n + 1] == lines;
      forall i | 0 <= i < n ensures LineFits(lines[..n], i) <==> LineFits(lines, i) {
        assert lines[..n][..i + 1] == lines[..i + 1];
      }
      assert FoldLines(lines).Some? <==> FoldLines(lines[..n]).Some? && LineFits(lines, n);
    }
  }

  lemma {:induction false} HoldsFoldExactly(holds: seq<HoldLine>, now: int)
    ensures FoldHolds(holds, now).Some? <==> forall i :: 0 <= i < |holds| ==> HoldFits(holds, now, i)
    ensures FoldHolds(holds, now).Some? ==> Safe(FoldHolds(holds, now).value)
  {
    if holds != [] {
      var n := |holds| - 1;
      HoldsFoldExactly(holds[..n], now);
      FoldHoldsIsSum(holds[..n], now);
      assert holds[..n + 1] == holds;
      forall i | 0 <= i < n ensures HoldFits(holds[..n], now, i) <==> HoldFits(holds, now, i) {
        assert holds[..n][..i + 1] == holds[..i + 1];
      }
      assert FoldHolds(holds, now).Some? <==> FoldHolds(holds[..n], now).Some? && HoldFits(holds, now, n);
    }
  }

  lemma {:induction false} FoldLinesIsSum(lines: seq<Line>)
    ensures FoldLines(lines).Some? ==> FoldLines(lines).value == Sum(lines, LineUnits)
  {
    if lines != [] { FoldLinesIsSum(lines[..|lines| - 1]); }
  }

  lemma {:induction false} FoldHoldsIsSum(holds: seq<HoldLine>, now: int)
    ensures FoldHolds(holds, now).Some? ==> FoldHolds(holds, now).value == Sum(holds, LiveLineUnits(now))
  {
    if holds != [] { FoldHoldsIsSum(holds[..|holds| - 1], now); }
  }

  /** Once the running total has raised, no later line repairs it. */
  lemma {:induction false} FoldLinesStaysFailed(lines: seq<Line>, i: nat)
    requires i <= |lines| && FoldLines(lines[..i]).None?
    ensures FoldLines(lines).None?
    decreases |lines|
  {
    if i < |lines| {
      assert lines[..|lines| - 1][..i] == lines[..i];
      FoldLinesStaysFailed(lines[..|lines| - 1], i);
    } else {
      assert lines[..i] == lines;
    }
  }

  lemma {:induction false} FoldHoldsStaysFailed(holds: seq<HoldLine>, now: int, i: nat)
    requires i <= |holds| && FoldHolds(holds[..i], now).None?
    ensures FoldHolds(holds, now).None?
    decreases |holds|
  {
    if i < |holds| {
      assert holds[..|holds| - 1][..i] == holds[..i];
      FoldHoldsStaysFailed(holds[..|holds| - 1], now, i);
    } else {
      assert holds[..i] == holds;
    }
  }

  /**
   * The position an account shows at `now`: the ledger balance, less the units of reservations that
   * are active and not yet expired; it raises (`None`) as soon as a line is bad or a total unsafe.
   */
  method CalculateCreditPosition(entries: seq<Line>, holds: seq<HoldLine>, now: int)
    returns (position: Option<CreditPosition>)
    ensures position == PositionOf(entries, holds, now)
  {
    var balance := 0;
    for i := 0 to |entries|
      invariant FoldLines(entries[..i]) == Some(balance)
    {
      assert entries[..i + 1][..i] == entries[..i];
      var added := if LineOk(entries[i]) then AddSafe(balance, entries[i].units) else None;
      if added.None? {
        FoldLinesStaysFailed(entries, i + 1);
        return None;
      }
      balance := added.value;
    }
    assert entries[..|entries|] == entries;

    var reserved, count := 0, 0;
    for i := 0 to |holds|
      invariant FoldHolds(holds[..i], now) == Some(reserved)
      invariant count == Sum(holds[..i], LiveLineCount(now))
    {
      assert holds[..i + 1][..i] == holds[..i];
      if !Safe(holds[i].units) || holds[i].units <= 0 {
        FoldHoldsStaysFailed(holds, now, i + 1);
        return None;
      }
      if IsLive(holds[i], now) {
        var added := AddSafe(reserved, holds[i].units);
        if added.None? {
          FoldHoldsStaysFailed(holds, now, i + 1);
          return None;
        }
        reserved, count := added.value, count + 1;
      }
    }
    assert holds[..|holds|] == holds;

    var available := AddSafe(balance, -reserved);
    if available.None? { return None; }
    position := Some(CreditPosition(balance, reserved, available.value, count));
  }

  /** Draws `units` from an active reservation; `None` is the RangeError of a misuse. */
  function ChargeReservation(status: Status, held: int, units: int): (charge: Option<ReservationCharge>)
    ensures charge.Some? <==> Safe(held) && status == Active && 0 < units <= held
    ensures charge.Some? ==> 0 < charge.value.heldUnits <= held
    ensures charge.Some? ==> (charge.value.status == Consumed <==> units == held)
    ensures charge.Some? && charge.value.status != Consumed ==>
              charge.value.status == Active && charge.value.heldUnits + units == held
  {
    if !Safe(held) || held <= 0 || !Safe(units) || units <= 0 || status != Active || units > held then None
    else if held == units then Some(ReservationCharge(held, Consumed))
    else Some(ReservationCharge(held - units, Active))
  }
}
