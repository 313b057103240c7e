/** Duplicate detection over the validated rows of an import, against the file itself and the guest list. */
module ImportDuplicates {
  import opened Basics

  /** A validated row: its normalized phone number, if validation left it without errors. */
  datatype Candidate = Candidate(id: string, number: int, phone: Option<string>)

  datatype Invitation = Invitation(id: string, phone: string)

  datatype RowStatus = Valid | Invalid | Duplicate

  datatype Warning =
    | DuplicateInFile(rowNumber: int)
    | DuplicateExistingInvitation(invitationIds: seq<string>)

  datatype ValidatedRow = ValidatedRow(
    id: string, status: RowStatus, phone: Option<string>,
    duplicateOfRow: Option<string>, duplicateInvitation: Option<string>, warning: Option<Warning>)

  datatype Readiness = Ready | Reviewing

  datatype Validation = Validation(
    rows: seq<ValidatedRow>, validRows: int, invalidRows: int, duplicateRows: int, readiness: Readiness)

  // ----- The quadratic definition -----

  predicate HasPhone(candidates: seq<Candidate>, phone: string) {
    exists i :: 0 <= i < |candidates| && candidates[i].phone == Some(phone)
  }

  /** The position of the earliest row with this phone. */
  function FirstWith(candidates: seq<Candidate>, phone: string): (first: nat)
    requires HasPhone(candidates, phone)
    ensures first < |candidates| && candidates[first].phone == Some(phone)
    ensures forall j :: 0 <= j < first ==> candidates[j].phone != Some(phone)
  {
    if candidates[0].phone == Some(phone) then 0
    else
      assert HasPhone(candidates[1..], phone) by {
        var i :| 0 <= i < |candidates| && candidates[i].phone == Some(phone);
        assert candidates[1..][i - 1].phone == Some(phone);
      }
      1 + FirstWith(candidates[1..], phone)
  }

  /** The active invitations that already use this phone, in the order of the table. */
  function Matching(existing: seq<Invitation>, phone: string): seq<Invitation> {
    if existing == [] then []
    else
      var last := existing[|existing| - 1];
      var before := Matching(existing[..|existing| - 1], phone);
      if last.phone == phone then before + [last] else before
  }

  function Ids(invitations: seq<Invitation>): seq<string> {
    seq(|invitations|, i requires 0 <= i < |invitations| => invitations[i].id)
  }

  function Take<T>(s: seq<T>, n: nat): seq<T> {
    if |s| <= n then s else s[..n]
  }

  /** What becomes of row `i`, by looking at all rows before it and at the whole guest list. */
  function RowOf(candidates: seq<Candidate>, existing: seq<Invitation>, i: nat): ValidatedRow
    requires i < |candidates|
  {
    var c := candidates[i];
    if c.phone.None? then ValidatedRow(c.id, Invalid, None, None, None, None)
    else if HasPhone(candidates[..i], c.phone.value) then
      var first := candidates[FirstWith(candidates[..i], c.phone.value)];
      ValidatedRow(c.id, Duplicate, c.phone, Some(first.id), None, Some(DuplicateInFile(first.number)))
    else
      var matches := Matching(existing, c.phone.value);
      if matches != [] then
        ValidatedRow(c.id, Duplicate, c.phone, None, Some(matches[0].id),
                     Some(DuplicateExistingInvitation(Ids(Take(matches, 100)))))
      else ValidatedRow(c.id, Valid, c.phone, None, None, None)
  }

  function RowsOf(candidates: seq<Candidate>, existing: seq<Invitation>): (rows: seq<ValidatedRow>)
    ensures |rows| == |candidates|
    ensures forall i :: 0 <= i < |rows| ==> rows[i] == RowOf(candidates, existing, i)
  {
    seq(|candidates|, i requires 0 <= i < |candidates| => RowOf(candidates, existing, i))
  }

  function IsInvalid(row: ValidatedRow): int { if row.status == Invalid then 1 else 0 }

  function IsDuplicate(row: ValidatedRow): int { if row.status == Duplicate then 1 else 0 }

  function ValidationOf(candidates: seq<Candidate>, existing: seq<Invitation>): Validation {
    var rows := RowsOf(candidates, existing);
    var invalid, duplicate := Sum(rows, IsInvalid), Sum(rows, IsDuplicate);
    Validation(rows, |rows| - invalid - duplicate, invalid, duplicate, if invalid == 0 then Ready else Reviewing)
  }

  // ----- The single pass over hash maps -----

  /** Groups the invitations by phone, keeping their order. */
  method GroupByPhone(existing: seq<Invitation>) returns (groups: map<string, seq<Invitation>>)
    ensures forall phone :: (if phone in groups then groups[phone] else []) == Matching(existing, phone)
  {
    groups := map[];
    for i := 0 to |existing|
      invariant forall phone :: (if phone in groups then groups[phone] else []) == Matching(existing[..i], phone)
    {
      assert existing[..i + 1][..i] == existing[..i];
      var invitation := existing[i];
      var matches := if invitation.phone in groups then groups[invitation.phone] else [];
      groups := groups[invitation.phone := matches + [invitation]];
    }
    assert existing[..|existing|] == existing;
  }

  /** The map remembers, for each phone read so far, the row that had it first. */
  ghost predicate RemembersFirstRows(seen: seq<Candidate>, firsts: map<string, (string, int)>) {
    && (forall phone :: phone in firsts <==> HasPhone(seen, phone))
    && (forall phone :: phone in firsts ==>
          var first := seen[FirstWith(seen, phone)];
          firsts[phone] == (first.id, first.number))
  }

  /** One pass, remembering the first row of every phone, does what the quadratic definition says. */
  method DetectRows(candidates: seq<Candidate>, existing: seq<Invitation>) returns (rows: seq<ValidatedRow>)
    ensures rows == RowsOf(candidates, existing)
  {
    var existingByPhone := GroupByPhone(existing);
    var firstRowByPhone: map<string, (string, int)> := map[];
    rows := [];
    for i := 0 to |candidates|
      invariant rows == RowsOf(candidates, existing)[..i]
      invariant RemembersFirstRows(candidates[..i], firstRowByPhone)
    {
      var candidate := candidates[i];
      assert candidates[..i + 1] == candidates[..i] + [candidate];
      ghost var row := RowOf(candidates, existing, i);
      assert RowsOf(candidates, existing)[..i + 1] == RowsOf(candidates, existing)[..i] + [row];
      RememberingOneMore(candidates[..i], candidate, firstRowByPhone);
      if candidate.phone.None? {
        rows := rows + [ValidatedRow(candidate.id, Invalid, None, None, None, None)];
        continue;
      }
      var phone := candidate.phone.value;
      var existingMatches := if phone in existingByPhone then existingByPhone[phone] else [];
      if phone in firstRowByPhone {
        var prior := firstRowByPhone[phone];
        rows := rows + [ValidatedRow(
          candidate.id, Duplicate, candidate.phone, Some(prior.0), None, Some(DuplicateInFile(prior.1)))];
        continue;
      }
      firstRowByPhone := firstRowByPhone[phone := (candidate.id, candidate.number)];
      if |existingMatches| > 0 {
        rows := rows + [ValidatedRow(
          candidate.id, Duplicate, candidate.phone, None, Some(existingMatches[0].id),
          Some(DuplicateExistingInvitation(Ids(Take(existingMatches, 100)))))];
        continue;
      }
      rows := rows + [ValidatedRow(candidate.id, Valid, candidate.phone, None, None, None)];
    }
    assert candidates[..|candidates|] == candidates;
  }

  /** One pass over the rows, and their counts: what the quadratic definition says. */
  method DetectDuplicates(candidates: seq<Candidate>, existing: seq<Invitation>) returns (validation: Validation)
    ensures validation == ValidationOf(candidates, existing)
    ensures validation.readiness == if forall c :: c in candidates ==> c.phone.Some? then Ready else Reviewing
    ensures |validation.rows| == |candidates|
    ensures forall i :: 0 <= i < |candidates| ==>
              validation.rows[i].id == candidates[i].id && validation.rows[i].phone == candidates[i].phone
  {
    var rows := DetectRows(candidates, existing);
    var invalidRows, duplicateRows := Sum(rows, IsInvalid), Sum(rows, IsDuplicate);
    validation := Validation(
      rows, |rows| - invalidRows - duplicateRows, invalidRows, duplicateRows,
      if invalidRows == 0 then Ready else Reviewing);
    ValidationKeepsRows(candidates, existing);
  }

  lemma ValidationKeepsRows(candidates: seq<Candidate>, existing: seq<Invitation>)
    ensures var validation := ValidationOf(candidates, existing);
            && validation.readiness == (if forall c :: c in candidates ==> c.phone.Some? then Ready else Reviewing)
            && |validation.rows| == |candidates|
            && forall i :: 0 <= i < |candidates| ==>
                 validation.rows[i].id == candidates[i].id && validation.rows[i].phone == candidates[i].phone
  {
    ReadyExactly(candidates, existing);
    forall i | 0 <= i < |candidates| { RowsKeepTheirIdentity(candidates, existing, i); }
  }

  lemma RememberingOneMore(seen: seq<Candidate>, next: Candidate, firsts: map<string, (string, int)>)
    requires RemembersFirstRows(seen, firsts)
    ensures RemembersFirstRows(
              seen + [next],
              if next.phone.None? || next.phone.value in firsts then firsts
              else firsts[next.phone.value := (next.id, next.number)])
  {
    FirstRowsAfter(seen, next);
  }

  /** Reading one more row leaves the first rows of known phones, and makes it the first of a new one. */
  lemma FirstRowsAfter(candidates: seq<Candidate>, next: Candidate)
    ensures forall phone :: HasPhone(candidates + [next], phone) <==>
              HasPhone(candidates, phone) || next.phone == Some(phone)
    ensures forall phone :: HasPhone(candidates, phone) ==>
              FirstWith(candidates + [next], phone) == FirstWith(candidates, phone)
    ensures next.phone.Some? && !HasPhone(candidates, next.phone.value) ==>
              HasPhone(candidates + [next], next.phone.value) &&
              FirstWith(candidates + [next], next.phone.value) == |candidates|
  {
    var after := candidates + [next];
    assert after[|candidates|] == next;
    forall phone | HasPhone(candidates, phone)
      ensures HasPhone(after, phone) && FirstWith(after, phone) == FirstWith(candidates, phone)
    {
      var first := FirstWith(candidates, phone);
      assert after[first] == candidates[first];
      assert HasPhone(after, phone);
      assert forall k :: 0 <= k < first ==> after[k] == candidates[k];
    }
    forall phone | HasPhone(after, phone) && next.phone != Some(phone) ensures HasPhone(candidates, phone) {
      var i :| 0 <= i < |after| && after[i].phone == Some(phone);
      assert candidates[i] == after[i];
    }
  }

  // ----- Closed forms -----

  /** The phones of normalized rows. */
  function Phones(candidates: seq<Candidate>): (phones: set<string>)
    ensures forall phone :: phone in phones <==> HasPhone(candidates, phone)
  {
    set i | 0 <= i < |candidates| && candidates[i].phone.Some? :: candidates[i].phone.value
  }

  function InvitedPhones(existing: seq<Invitation>): set<string> {
    set i | 0 <= i < |existing| :: existing[i].phone
  }

  function ValidPhones(rows: seq<ValidatedRow>): set<string> {
    set i | 0 <= i < |rows| && rows[i].status == Valid && rows[i].phone.Some? :: rows[i].phone.value
  }

  function IsValid(row: ValidatedRow): int { if row.status == Valid then 1 else 0 }

  lemma {:induction false} MatchingMeansInvited(existing: seq<Invitation>, phone: string)
    ensures Matching(existing, phone) == [] <==> phone !in InvitedPhones(existing)
  {
    if existing != [] {
      var n := |existing| - 1;
      MatchingMeansInvited(existing[..n], phone);
      assert existing == existing[..n] + [existing[n]];
      assert InvitedPhones(existing) == InvitedPhones(existing[..n]) + {existing[n].phone} by {
        forall p | p in InvitedPhones(existing) ensures p in InvitedPhones(existing[..n]) + {existing[n].phone} {
          var i :| 0 <= i < |existing| && existing[i].phone == p;
          if i < n { assert existing[..n][i].phone == p; }
        }
        assert forall i :: 0 <= i < n ==> existing[..n][i] == existing[i];
      }
    }
  }

  lemma {:induction false} StatusesAddUp(rows: seq<ValidatedRow>)
    ensures Sum(rows, IsValid) + Sum(rows, IsInvalid) + Sum(rows, IsDuplicate) == |rows|
  {
    if rows != [] { StatusesAddUp(rows[..|rows| - 1]); }
  }

  lemma PrefixOfRows(candidates: seq<Candidate>, existing: seq<Invitation>, n: nat)
    requires n <= |candidates|
    ensures RowsOf(candidates, existing)[..n] == RowsOf(candidates[..n], existing)
  {
    forall i | 0 <= i < n ensures RowOf(candidates, existing, i) == RowOf(candidates[..n], existing, i) {
      assert candidates[..n][..i] == candidates[..i];
    }
  }

  /** The last row is valid exactly when its phone adds one to the phones that are new to the guest list. */
  lemma LastRowAddsItsPhone(before: seq<Candidate>, last: Candidate, existing: seq<Invitation>)
    ensures var row := RowOf(before + [last], existing, |before|);
            && row.phone == last.phone
            && (row.status == Valid <==>
                  last.phone.Some? && last.phone.value !in Phones(before) &&
                  last.phone.value !in InvitedPhones(existing))
            && Phones(before + [last]) == Phones(before) + if last.phone.Some? then {last.phone.value} else {}
  {
    assert (before + [last])[..|before|] == before;
    FirstRowsAfter(before, last);
    if last.phone.Some? { MatchingMeansInvited(existing, last.phone.value); }
  }

  ghost predicate ValidRowsAreNewPhones(candidates: seq<Candidate>, existing: seq<Invitation>) {
    var rows, added := RowsOf(candidates, existing), Phones(candidates) - InvitedPhones(existing);
    ValidPhones(rows) == added && Sum(rows, IsValid) == |added|
  }

  lemma NoRowsNoPhones(existing: seq<Invitation>)
    ensures ValidRowsAreNewPhones([], existing)
  {
    assert RowsOf([], existing) == [] && Phones([]) == {};
    assert Phones([]) - InvitedPhones(existing) == {};
  }

  lemma OneMorePhone(phones: set<string>, invited: set<string>, phone: Option<string>)
    ensures var more := if phone.Some? then {phone.value} else {};
            var isNew := phone.Some? && phone.value !in phones && phone.value !in invited;
            && phones + more - invited == (phones - invited) + (if isNew then more else {})
            && |phones + more - invited| == |phones - invited| + (if isNew then 1 else 0)
  {
    var more := if phone.Some? then {phone.value} else {};
    if phone.Some? && phone.value !in phones && phone.value !in invited {
      assert phones + more - invited == (phones - invited) + more;
    } else {
      assert phones + more - invited == phones - invited;
    }
  }

  lemma SplitAtLast<T>(all: seq<T>, front: seq<T>, last: T)
    requires |all| == |front| + 1 && all[..|front|] == front && all[|front|] == last
    ensures all == front + [last]
  {
  }

  lemma ClosedFormStep(before: seq<Candidate>, last: Candidate, existing: seq<Invitation>)
    requires ValidRowsAreNewPhones(before, existing)
    ensures ValidRowsAreNewPhones(before + [last], existing)
  {
    var candidates := before + [last];
    var rows, was, row := RowsOf(candidates, existing), RowsOf(before, existing), RowOf(candidates, existing, |before|);
    PrefixOfRows(candidates, existing, |before|);
    assert candidates[..|before|] == before;
    SplitAtLast(rows, was, row);
    LastRowAddsItsPhone(before, last, existing);
    ValidPhonesAfter(was, row);
    SumAppend(was, row, IsValid);
    OneMorePhone(Phones(before), InvitedPhones(existing), last.phone);
  }

  lemma {:induction false} ValidRowsClosedForm(candidates: seq<Candidate>, existing: seq<Invitation>)
    ensures ValidRowsAreNewPhones(candidates, existing)
  {
    if candidates == [] {
      NoRowsNoPhones(existing);
    } else {
      var before, last := candidates[..|candidates| - 1], candidates[|candidates| - 1];
      assert before + [last] == candidates;
      ValidRowsClosedForm(before, existing);
      ClosedFormStep(before, last, existing);
    }
  }

  lemma ValidPhonesAfter(rows: seq<ValidatedRow>, row: ValidatedRow)
    ensures ValidPhones(rows + [row]) ==
            ValidPhones(rows) + if row.status == Valid && row.phone.Some? then {row.phone.value} else {}
  {
    var after := rows + [row];
    assert forall i :: 0 <= i < |rows| ==> after[i] == rows[i];
    assert after[|rows|] == row;
  }

  /**
   * The counts in closed form: as many valid rows as there are distinct normalized phones not invited yet,
   * as many invalid rows as there are rows that did not normalize, and the three counts cover all rows.
   */
  lemma CountsInClosedForm(candidates: seq<Candidate>, existing: seq<Invitation>)
    ensures var v := ValidationOf(candidates, existing);
            && v.validRows == |Phones(candidates) - InvitedPhones(existing)|
            && v.invalidRows == Sum(candidates, IsUnreadable)
            && v.validRows + v.invalidRows + v.duplicateRows == |candidates|
            && ValidPhones(v.rows) == Phones(candidates) - InvitedPhones(existing)
  {
    ValidRowsClosedForm(candidates, existing);
    StatusesAddUp(RowsOf(candidates, existing));
    InvalidRowsClosedForm(candidates, existing);
  }

  function IsUnreadable(candidate: Candidate): int { if candidate.phone.None? then 1 else 0 }

  lemma {:induction false} InvalidRowsClosedForm(candidates: seq<Candidate>, existing: seq<Invitation>)
    ensures Sum(RowsOf(candidates, existing), IsInvalid) == Sum(candidates, IsUnreadable)
  {
    if candidates != [] {
      var n := |candidates| - 1;
      InvalidRowsClosedForm(candidates[..n], existing);
      PrefixOfRows(candidates, existing, n);
    }
  }

  // ----- The order of the rows does not matter -----

  /** Permuting the rows changes neither the counts, nor the readiness, nor which phones are valid. */
  lemma RowOrderDoesNotMatter(a: seq<Candidate>, b: seq<Candidate>, existing: seq<Invitation>)
    requires multiset(a) == multiset(b)
    ensures var v, w := ValidationOf(a, existing), ValidationOf(b, existing);
            && v.validRows == w.validRows && v.invalidRows == w.invalidRows && v.duplicateRows == w.duplicateRows
            && v.readiness == w.readiness && ValidPhones(v.rows) == ValidPhones(w.rows)
  {
    CountsInClosedForm(a, existing);
    CountsInClosedForm(b, existing);
    SumOfPermutation(a, b, IsUnreadable);
    assert |a| == |multiset(a)| == |multiset(b)| == |b|;
    SamePhones(a, b);
    SamePhones(b, a);
    assert Phones(a) == Phones(b);
  }

  lemma SamePhones(a: seq<Candidate>, b: seq<Candidate>)
    requires multiset(a) == multiset(b)
    ensures Phones(a) <= Phones(b)
  {
    forall phone | phone in Phones(a) ensures phone in Phones(b) {
      var i :| 0 <= i < |a| && a[i].phone == Some(phone);
      assert a[i] in multiset(a);
      var j :| 0 <= j < |b| && b[j] == a[i];
      assert HasPhone(b, phone);
    }
  }

  // ----- Duplicates point at their original -----

  /**
   * A row is marked as the duplicate of another row exactly when an earlier row has its phone, and then it
   * names the earliest such row, which is not itself marked as the duplicate of a row.
   */
  lemma DuplicatesNameTheEarliestRow(candidates: seq<Candidate>, existing: seq<Invitation>, i: nat)
    requires i < |candidates|
    ensures var row := RowOf(candidates, existing, i);
            && (row.duplicateOfRow.Some? <==>
                  candidates[i].phone.Some? && exists j :: 0 <= j < i && candidates[j].phone == candidates[i].phone)
            && (row.duplicateOfRow.Some? ==>
                  exists j :: 0 <= j < i && candidates[j].phone == candidates[i].phone
                    && (forall k :: 0 <= k < j ==> candidates[k].phone != candidates[i].phone)
                    && row.duplicateOfRow == Some(candidates[j].id)
                    && row.warning == Some(DuplicateInFile(candidates[j].number))
                    && RowOf(candidates, existing, j).duplicateOfRow.None?)
  {
    if candidates[i].phone.Some? {
      var phone := candidates[i].phone.value;
      assert forall j :: 0 <= j < i ==> candidates[..i][j] == candidates[j];
      if HasPhone(candidates[..i], phone) {
        var j := FirstWith(candidates[..i], phone);
        assert forall k :: 0 <= k < j ==> candidates[..i][k].phone != Some(phone);
        assert !HasPhone(candidates[..j], phone);
      }
    }
  }

  /** A row is valid exactly when it normalized and its phone is new, to the file so far and to the guest list. */
  lemma ValidRowExactly(candidates: seq<Candidate>, existing: seq<Invitation>, i: nat)
    requires i < |candidates|
    ensures RowOf(candidates, existing, i).status == Valid <==>
            && candidates[i].phone.Some?
            && (forall j :: 0 <= j < i ==> candidates[j].phone != candidates[i].phone)
            && (forall e :: e in existing ==> e.phone != candidates[i].phone.value)
  {
    if candidates[i].phone.Some? {
      var phone := candidates[i].phone.value;
      MatchingMeansInvited(existing, phone);
      assert forall j :: 0 <= j < i ==> candidates[..i][j] == candidates[j];
      assert phone in InvitedPhones(existing) <==> exists e :: e in existing && e.phone == phone;
    }
  }

  /** Once the valid rows have become invitations, validating the same rows finds no valid row. */
  lemma ImportedRowsAreNeverValidAgain(candidates: seq<Candidate>, existing: seq<Invitation>, later: seq<Invitation>)
    requires InvitedPhones(existing) + ValidPhones(ValidationOf(candidates, existing).rows) <= InvitedPhones(later)
    ensures ValidationOf(candidates, later).validRows == 0
  {
    CountsInClosedForm(candidates, existing);
    CountsInClosedForm(candidates, later);
    assert Phones(candidates) - InvitedPhones(later) == {};
  }

  // ----- Looking up only the phones of the file -----

  /** findActiveInvitationsByPhone: the active invitations with one of these phones, in table order. */
  function Lookup(table: seq<Invitation>, phones: set<string>): seq<Invitation> {
    if table == [] then []
    else
      var last := table[|table| - 1];
      var before := Lookup(table[..|table| - 1], phones);
      if last.phone in phones then before + [last] else before
  }

  lemma {:induction false} LookupKeepsMatches(table: seq<Invitation>, phones: set<string>, phone: string)
    requires phone in phones
    ensures Matching(Lookup(table, phones), phone) == Matching(table, phone)
  {
    if table != [] {
      var n := |table| - 1;
      LookupKeepsMatches(table[..n], phones, phone);
      var before := Lookup(table[..n], phones);
      assert (before + [table[n]])[..|before|] == before;
    }
  }

  /** Detecting duplicates against the narrowed lookup gives the result of the whole table. */
  lemma NarrowedLookupIsLossless(candidates: seq<Candidate>, table: seq<Invitation>)
    ensures ValidationOf(candidates, Lookup(table, Phones(candidates))) == ValidationOf(candidates, table)
  {
    var narrowed := Lookup(table, Phones(candidates));
    forall i | 0 <= i < |candidates|
      ensures RowOf(candidates, narrowed, i) == RowOf(candidates, table, i)
    {
      if candidates[i].phone.Some? {
        assert HasPhone(candidates, candidates[i].phone.value);
        LookupKeepsMatches(table, Phones(candidates), candidates[i].phone.value);
      }
    }
    assert RowsOf(candidates, narrowed) == RowsOf(candidates, table);
  }

  // ----- What is stored with each row, and with the job -----

  lemma {:induction false} NoInvalidRows(candidates: seq<Candidate>)
    ensures Sum(candidates, IsUnreadable) >= 0
    ensures Sum(candidates, IsUnreadable) == 0 <==> forall c :: c in candidates ==> c.phone.Some?
  {
    if candidates != [] {
      var front, last := candidates[..|candidates| - 1], candidates[|candidates| - 1];
      NoInvalidRows(front);
      assert candidates == front + [last];
    }
  }

  /** The import is ready exactly when every row normalized; otherwise it is up for review. */
  lemma ReadyExactly(candidates: seq<Candidate>, existing: seq<Invitation>)
    ensures ValidationOf(candidates, existing).readiness ==
            if forall c :: c in candidates ==> c.phone.Some? then Ready else Reviewing
  {
    InvalidRowsClosedForm(candidates, existing);
    NoInvalidRows(candidates);
  }

  /** A row keeps its id and phone, and one that did not normalize is invalid and says nothing of duplicates. */
  lemma RowsKeepTheirIdentity(candidates: seq<Candidate>, existing: seq<Invitation>, i: nat)
    requires i < |candidates|
    ensures var row := RowOf(candidates, existing, i);
            && row.id == candidates[i].id && row.phone == candidates[i].phone
            && (candidates[i].phone.None? <==> row.status == Invalid)
            && (row.status == Duplicate <==> row.duplicateOfRow.Some? || row.duplicateInvitation.Some?)
            && (row.status == Duplicate <==> row.warning.Some?)
            && (row.duplicateOfRow.Some? ==> row.duplicateInvitation.None?)
  {
  }

  /** The positions of the invitations with this phone, in the order of the table. */
  ghost predicate ArePositionsOf(existing: seq<Invitation>, phone: string, at: seq<int>) {
    && (forall k :: 0 <= k < |at| ==> 0 <= at[k] < |existing|)
    && (forall k, m :: 0 <= k < m < |at| ==> at[k] < at[m])
    && (forall j :: 0 <= j < |existing| ==> (j in at <==> existing[j].phone == phone))
  }

  lemma {:induction false} MatchingPositions(existing: seq<Invitation>, phone: string) returns (at: seq<int>)
    ensures ArePositionsOf(existing, phone, at) && |at| == |Matching(existing, phone)|
    ensures forall k :: 0 <= k < |at| ==> Matching(existing, phone)[k] == existing[at[k]]
  {
    at := [];
    if existing != [] {
      var n := |existing| - 1;
      at := MatchingPositions(existing[..n], phone);
      if existing[n].phone == phone { at := at + [n]; }
    }
  }

  /**
   * A row whose phone is new to the file but not to the guest list names the first invitation of the table
   * with that phone, and warns of the first hundred of them, in order.
   */
  lemma InvitationDuplicatesExactly(candidates: seq<Candidate>, existing: seq<Invitation>, i: nat)
    returns (at: seq<int>)
    requires i < |candidates| && candidates[i].phone.Some?
    requires forall j :: 0 <= j < i ==> candidates[j].phone != candidates[i].phone
    ensures ArePositionsOf(existing, candidates[i].phone.value, at)
    ensures var row := RowOf(candidates, existing, i);
            if at == [] then row.status == Valid && row.duplicateInvitation.None? && row.warning.None?
            else
              && row.status == Duplicate && row.duplicateOfRow.None?
              && row.duplicateInvitation == Some(existing[at[0]].id)
              && row.warning.Some? && row.warning.value.DuplicateExistingInvitation?
              && var ids := row.warning.value.invitationIds;
                 |ids| == (if |at| < 100 then |at| else 100) &&
                 forall k :: 0 <= k < |ids| ==> ids[k] == existing[at[k]].id
  {
    at := MatchingPositions(existing, candidates[i].phone.value);
    assert !HasPhone(candidates[..i], candidates[i].phone.value);
  }
}
