/**
 * The paging loop of the export processor: keyset pages of a table that others may change between two
 * pages, with the check that refuses a page that does not advance.
 */
module ExportPaging {
  import opened Basics

  /** createdAt in milliseconds, and the id as the number its UUID spells. */
  datatype Cursor = Cursor(createdAt: int, id: int)

  datatype Row<+D> = Row(cursor: Cursor, data: D)

  predicate Before(a: Cursor, b: Cursor) {
    a.createdAt < b.createdAt || (a.createdAt == b.createdAt && a.id < b.id)
  }

  /** Rows are ordered by their creation and, among those created at once, by their ids; no two rows tie. */
  lemma CursorOrder(a: Cursor, b: Cursor)
    ensures a.createdAt < b.createdAt ==> Before(a, b)
    ensures a.createdAt == b.createdAt && a.id < b.id ==> Before(a, b)
    ensures !(Before(a, b) && Before(b, a))
    ensures a != b <==> Before(a, b) || Before(b, a)
  {
  }

  predicate Past(cursor: Option<Cursor>, next: Cursor) {
    cursor.None? || Before(cursor.value, next)
  }

  function LastCursor<D>(rows: seq<Row<D>>, cursor: Option<Cursor>): Option<Cursor> {
    if rows == [] then cursor else Some(rows[|rows| - 1].cursor)
  }

  ghost predicate AdvancesAt<D>(cursor: Option<Cursor>, rows: seq<Row<D>>, i: nat)
    requires i < |rows|
  {
    Past(if i == 0 then cursor else Some(rows[i - 1].cursor), rows[i].cursor)
  }

  /** Every row lies past the one before it, and the first one past `cursor`. */
  ghost predicate Advances<D>(cursor: Option<Cursor>, rows: seq<Row<D>>) {
    forall i :: 0 <= i < |rows| ==> AdvancesAt(cursor, rows, i)
  }

  ghost predicate Increasing<D>(rows: seq<Row<D>>) {
    forall i, j :: 0 <= i < j < |rows| ==> Before(rows[i].cursor, rows[j].cursor)
  }

  datatype PagingError = OversizedPage | CursorNotAdvanced

  /** What the loop ends with; `Waiting` if it still asks for a page when the answers run out. */
  datatype PagingResult<+D> = Finished(rows: seq<Row<D>>) | Waiting(rows: seq<Row<D>>) | Refused(error: PagingError)

  // ----- The loop -----

  ghost function ProgressError<D>(rows: seq<Row<D>>, previous: Option<Cursor>, pageSize: nat): Option<PagingError> {
    if |rows| > pageSize then Some(OversizedPage)
    else if !Advances(previous, rows) then Some(CursorNotAdvanced)
    else None
  }

  method AssertForwardProgress<D>(rows: seq<Row<D>>, previous: Option<Cursor>, pageSize: nat)
    returns (error: Option<PagingError>)
    ensures error == ProgressError(rows, previous, pageSize)
  {
    if |rows| > pageSize { return Some(OversizedPage); }
    var cursor := previous;
    for i := 0 to |rows|
      invariant cursor == if i == 0 then previous else Some(rows[i - 1].cursor)
      invariant forall k :: 0 <= k < i ==> AdvancesAt(previous, rows, k)
    {
      assert AdvancesAt(previous, rows, i) <==> Past(cursor, rows[i].cursor);
      if cursor.Some? &&
         (rows[i].cursor.createdAt < cursor.value.createdAt ||
          (rows[i].cursor.createdAt == cursor.value.createdAt && rows[i].cursor.id <= cursor.value.id))
      {
        return Some(CursorNotAdvanced);
      }
      cursor := Some(rows[i].cursor);
    }
    error := None;
  }

  ghost predicate LiesPast(before: Option<Cursor>, next: Cursor) {
    before.Some? ==>
      before.value.createdAt < next.createdAt || (before.value.createdAt == next.createdAt && before.value.id < next.id)
  }

  /** A page passes exactly when it is no longer than asked for and each row lies past the one before it. */
  lemma ProgressExactly<D>(rows: seq<Row<D>>, previous: Option<Cursor>, pageSize: nat)
    ensures ProgressError(rows, previous, pageSize) == Some(OversizedPage) <==> |rows| > pageSize
    ensures ProgressError(rows, previous, pageSize).None? <==>
              && |rows| <= pageSize
              && (rows != [] ==> LiesPast(previous, rows[0].cursor))
              && (forall i :: 0 <= i < |rows| - 1 ==> LiesPast(Some(rows[i].cursor), rows[i + 1].cursor))
  {
    if ProgressError(rows, previous, pageSize).None? {
      forall i | 0 <= i < |rows| - 1 ensures LiesPast(Some(rows[i].cursor), rows[i + 1].cursor) {
        assert AdvancesAt(previous, rows, i + 1);
      }
      assert rows != [] ==> AdvancesAt(previous, rows, 0);
    }
    if |rows| <= pageSize && (rows != [] ==> LiesPast(previous, rows[0].cursor)) &&
       (forall i :: 0 <= i < |rows| - 1 ==> LiesPast(Some(rows[i].cursor), rows[i + 1].cursor))
    {
      forall i | 0 <= i < |rows| ensures AdvancesAt(previous, rows, i) {
        if i > 0 { assert LiesPast(Some(rows[i - 1].cursor), rows[(i - 1) + 1].cursor); }
      }
    }
  }

  /** A result with rows that were written before it. */
  ghost function Prepend<D>(written: seq<Row<D>>, rest: PagingResult<D>): PagingResult<D> {
    match rest
    case Finished(rows) => Finished(written + rows)
    case Waiting(rows) => Waiting(written + rows)
    case Refused(_) => rest
  }

  /** The loop's result, given the repository's answers to its successive queries. */
  ghost function Paged<D>(answers: seq<seq<Row<D>>>, cursor: Option<Cursor>, pageSize: nat): PagingResult<D> {
    if answers == [] then Waiting([])
    else
      var page := answers[0];
      if page == [] then Finished([])
      else if ProgressError(page, cursor, pageSize).Some? then Refused(ProgressError(page, cursor, pageSize).value)
      else if |page| < pageSize then Finished(page)
      else Prepend(page, Paged(answers[1..], LastCursor(page, cursor), pageSize))
  }

  lemma PrependTwice<D>(a: seq<Row<D>>, b: seq<Row<D>>, rest: PagingResult<D>)
    ensures Prepend(a, Prepend(b, rest)) == Prepend(a + b, rest)
  {
    if !rest.Refused? { assert a + (b + rest.rows) == (a + b) + rest.rows; }
  }

  /** The paging loop: it stops on an empty or short page, and gives up on one that does not advance. */
  method WritePages<D>(answers: seq<seq<Row<D>>>, pageSize: nat) returns (result: PagingResult<D>, rowCount: nat)
    ensures result == Paged(answers, None, pageSize)
    ensures result.Finished? ==> rowCount == |result.rows|
  {
    var cursor: Option<Cursor> := None;
    var written: seq<Row<D>> := [];
    rowCount := 0;
    var query := 0;
    while query < |answers|
      invariant query <= |answers| && rowCount == |written|
      invariant Paged(answers, None, pageSize) == Prepend(written, Paged(answers[query..], cursor, pageSize))
    {
      var rows := answers[query];
      if |rows| == 0 {
        assert written + [] == written;
        return Finished(written), rowCount;
      }
      var error := AssertForwardProgress(rows, cursor, pageSize);
      if error.Some? { return Refused(error.value), rowCount; }
      if |rows| < pageSize { return Finished(written + rows), rowCount + |rows|; }
      assert answers[query..][1..] == answers[query + 1..];
      PrependTwice(written, rows, Paged(answers[query + 1..], LastCursor(rows, cursor), pageSize));
      written, rowCount, cursor := written + rows, rowCount + |rows|, Some(rows[|rows| - 1].cursor);
      query := query + 1;
    }
    assert written + [] == written;
    result := Waiting(written);
  }

  // ----- Whatever the repository answers -----

  lemma {:induction false} AdvancesMeansIncreasing<D>(cursor: Option<Cursor>, rows: seq<Row<D>>)
    requires Advances(cursor, rows)
    ensures Increasing(rows)
    ensures forall i :: 0 <= i < |rows| ==> Past(cursor, rows[i].cursor)
  {
    if rows != [] {
      var n := |rows| - 1;
      forall i | 0 <= i < n ensures AdvancesAt(cursor, rows[..n], i) {
        assert AdvancesAt(cursor, rows, i);
      }
      AdvancesMeansIncreasing(cursor, rows[..n]);
      assert AdvancesAt(cursor, rows, n);
      forall i | 0 <= i < n ensures Before(rows[i].cursor, rows[n].cursor) {
        assert i < n - 1 ==> Before(rows[..n][i].cursor, rows[..n][n - 1].cursor);
      }
      assert forall i :: 0 <= i < n ==> rows[..n][i] == rows[i];
    }
  }

  /** Even an arbitrary repository only ever gets rows written in strictly increasing cursor order. */
  lemma {:induction false} WrittenRowsIncrease<D>(answers: seq<seq<Row<D>>>, cursor: Option<Cursor>, pageSize: nat)
    ensures var result := Paged(answers, cursor, pageSize);
            !result.Refused? ==>
              Increasing(result.rows) && forall i :: 0 <= i < |result.rows| ==> Past(cursor, result.rows[i].cursor)
  {
    if answers != [] && answers[0] != [] && ProgressError(answers[0], cursor, pageSize).None? {
      var page := answers[0];
      AdvancesMeansIncreasing(cursor, page);
      var next := LastCursor(page, cursor);
      WrittenRowsIncrease(answers[1..], next, pageSize);
      var rest := Paged(answers[1..], next, pageSize);
      if |page| == pageSize && !rest.Refused? {
        forall i, j | 0 <= i < |page| && 0 <= j < |rest.rows|
          ensures Before(page[i].cursor, rest.rows[j].cursor)
        {
          assert Past(next, rest.rows[j].cursor);
        }
      }
    }
  }

  // ----- Against a table -----

  function FirstPast<D>(table: seq<Row<D>>, cursor: Option<Cursor>, k: nat): (first: nat)
    requires k <= |table|
    ensures k <= first <= |table| && (first < |table| ==> Past(cursor, table[first].cursor))
    ensures forall i :: k <= i < first ==> !Past(cursor, table[i].cursor)
    decreases |table| - k
  {
    if k == |table| || Past(cursor, table[k].cursor) then k else FirstPast(table, cursor, k + 1)
  }

  /** The rows of a table, kept in cursor order, that lie past the cursor. */
  function After<D>(table: seq<Row<D>>, cursor: Option<Cursor>): seq<Row<D>> {
    table[FirstPast(table, cursor, 0)..]
  }

  function Take<D>(rows: seq<Row<D>>, pageSize: nat): seq<Row<D>> {
    if |rows| <= pageSize then rows else rows[..pageSize]
  }

  /** The answers of the repository when the table looks like `tables[k]` at the k-th query. */
  function Served<D>(tables: seq<seq<Row<D>>>, cursor: Option<Cursor>, pageSize: nat): seq<seq<Row<D>>> {
    if tables == [] then []
    else
      var page := Take(After(tables[0], cursor), pageSize);
      [page] +
      if page == [] || |page| < pageSize then [] else Served(tables[1..], LastCursor(page, cursor), pageSize)
  }

  predicate Has<D>(table: seq<Row<D>>, cursor: Cursor) {
    exists i :: 0 <= i < |table| && table[i].cursor == cursor
  }

  lemma AfterIsTheRest<D>(table: seq<Row<D>>, cursor: Option<Cursor>)
    requires Increasing(table)
    ensures |After(table, cursor)| <= |table| && After(table, cursor) == table[|table| - |After(table, cursor)|..]
    ensures forall i :: 0 <= i < |After(table, cursor)| ==> Past(cursor, After(table, cursor)[i].cursor)
    ensures forall i :: 0 <= i < |table| ==>
              (Past(cursor, table[i].cursor) <==> |table| - |After(table, cursor)| <= i)
  {
    var first := FirstPast(table, cursor, 0);
    forall i | 0 <= i < |table| ensures Past(cursor, table[i].cursor) <==> first <= i {
      if first < i { assert Before(table[first].cursor, table[i].cursor); }
    }
  }

  lemma PagesAdvance<D>(table: seq<Row<D>>, cursor: Option<Cursor>, pageSize: nat)
    requires Increasing(table)
    ensures Advances(cursor, Take(After(table, cursor), pageSize))
  {
    AfterIsTheRest(table, cursor);
    var page := Take(After(table, cursor), pageSize);
    var skipped := |table| - |After(table, cursor)|;
    forall i | 0 <= i < |page| ensures AdvancesAt(cursor, page, i) {
      assert page[i] == table[skipped + i];
      if i > 0 { assert page[i - 1] == table[skipped + (i - 1)]; }
    }
  }

  /** A row past the cursor is on the page or past the page's last row. */
  lemma OnThePageOrPastIt<D>(table: seq<Row<D>>, cursor: Option<Cursor>, pageSize: nat, c: Cursor)
    requires Increasing(table) && pageSize > 0 && Has(table, c) && Past(cursor, c)
    ensures var page := Take(After(table, cursor), pageSize);
            page != [] && (Has(page, c) || (|page| == pageSize && Past(LastCursor(page, cursor), c)))
  {
    AfterIsTheRest(table, cursor);
    var rest := After(table, cursor);
    var i :| 0 <= i < |table| && table[i].cursor == c;
    assert rest[i - (|table| - |rest|)] == table[i];
    SuffixIncreases(table, |table| - |rest|);
    TakenOrBehind(rest, cursor, pageSize, c);
  }

  lemma SuffixIncreases<D>(table: seq<Row<D>>, skipped: nat)
    requires Increasing(table) && skipped <= |table|
    ensures Increasing(table[skipped..])
  {
  }

  lemma TakenOrBehind<D>(rest: seq<Row<D>>, cursor: Option<Cursor>, pageSize: nat, c: Cursor)
    requires Increasing(rest) && pageSize > 0 && Has(rest, c)
    ensures var page := Take(rest, pageSize);
            page != [] && (Has(page, c) || (|page| == pageSize && Past(LastCursor(page, cursor), c)))
  {
    var k :| 0 <= k < |rest| && rest[k].cursor == c;
    var page := Take(rest, pageSize);
    if k < |page| {
      assert page[k].cursor == c;
    } else {
      assert page[pageSize - 1] == rest[pageSize - 1];
    }
  }

  ghost predicate AllIncreasing<D>(tables: seq<seq<Row<D>>>) {
    forall k :: 0 <= k < |tables| ==> Increasing(tables[k])
  }

  /** Every row of an answer was in the table when its page was read. */
  lemma {:induction false} AnswersComeFromTheirTable<D>(
    tables: seq<seq<Row<D>>>, cursor: Option<Cursor>, pageSize: nat, k: nat, row: Row<D>)
    requires k < |Served(tables, cursor, pageSize)| && row in Served(tables, cursor, pageSize)[k]
    ensures k < |tables| && row in tables[k]
  {
    var page := Take(After(tables[0], cursor), pageSize);
    if k > 0 { AnswersComeFromTheirTable(tables[1..], LastCursor(page, cursor), pageSize, k - 1, row); }
  }

  /** Row `row` is written with the k-th page. */
  ghost predicate WrittenWith<D>(answers: seq<seq<Row<D>>>, k: nat, row: Row<D>) {
    k < |answers| && row in answers[k]
  }

  lemma {:induction false} WrittenRowsComeFromAnswers<D>(
    answers: seq<seq<Row<D>>>, cursor: Option<Cursor>, pageSize: nat, row: Row<D>)
    requires var result := Paged(answers, cursor, pageSize); !result.Refused? && row in result.rows
    ensures exists k: nat :: WrittenWith(answers, k, row)
  {
    var page := answers[0];
    if row in page {
      assert WrittenWith(answers, 0, row);
    } else {
      WrittenRowsComeFromAnswers(answers[1..], LastCursor(page, cursor), pageSize, row);
      var k: nat :| WrittenWith(answers[1..], k, row);
      assert WrittenWith(answers, k + 1, row);
    }
  }

  lemma {:induction false} TablesAreNeverRefused<D>(
    tables: seq<seq<Row<D>>>, cursor: Option<Cursor>, pageSize: nat)
    requires pageSize > 0 && AllIncreasing(tables)
    ensures !Paged(Served(tables, cursor, pageSize), cursor, pageSize).Refused?
  {
    if tables != [] {
      var page := Take(After(tables[0], cursor), pageSize);
      PagesAdvance(tables[0], cursor, pageSize);
      if |page| == pageSize {
        TablesAreNeverRefused(tables[1..], LastCursor(page, cursor), pageSize);
        assert Served(tables, cursor, pageSize)[1..] == Served(tables[1..], LastCursor(page, cursor), pageSize);
      }
    }
  }

  /**
   * No check ever fires on a table, and every row written belongs to a page that held it, read from the
   * table when it held it.
   */
  lemma WrittenRowsWereThere<D>(tables: seq<seq<Row<D>>>, cursor: Option<Cursor>, pageSize: nat)
    requires pageSize > 0 && AllIncreasing(tables)
    ensures var answers := Served(tables, cursor, pageSize);
            var result := Paged(answers, cursor, pageSize);
            && !result.Refused?
            && |answers| <= |tables|
            && (forall row :: row in result.rows ==> exists k: nat :: WrittenWith(answers, k, row))
            && (forall k: nat, row :: WrittenWith(answers, k, row) ==> k < |tables| && row in tables[k])
  {
    var answers := Served(tables, cursor, pageSize);
    TablesAreNeverRefused(tables, cursor, pageSize);
    NoMoreAnswersThanTables(tables, cursor, pageSize);
    forall row | row in Paged(answers, cursor, pageSize).rows ensures exists k: nat :: WrittenWith(answers, k, row) {
      WrittenRowsComeFromAnswers(answers, cursor, pageSize, row);
    }
    forall k: nat, row | WrittenWith(answers, k, row) ensures k < |tables| && row in tables[k] {
      AnswersComeFromTheirTable(tables, cursor, pageSize, k, row);
    }
  }

  lemma {:induction false} NoMoreAnswersThanTables<D>(
    tables: seq<seq<Row<D>>>, cursor: Option<Cursor>, pageSize: nat)
    ensures |Served(tables, cursor, pageSize)| <= |tables|
  {
    if tables != [] {
      var page := Take(After(tables[0], cursor), pageSize);
      NoMoreAnswersThanTables(tables[1..], LastCursor(page, cursor), pageSize);
    }
  }

  /** Rows may come and go between pages: when the loop finishes, a row that was there throughout is written. */
  lemma {:induction false} PresentRowsAreWritten<D>(
    tables: seq<seq<Row<D>>>, cursor: Option<Cursor>, pageSize: nat, c: Cursor)
    requires pageSize > 0 && AllIncreasing(tables)
    requires Past(cursor, c) && forall k :: 0 <= k < |tables| ==> Has(tables[k], c)
    ensures var result := Paged(Served(tables, cursor, pageSize), cursor, pageSize);
            result.Finished? ==> Has(result.rows, c)
  {
    if tables != [] {
      var page := Take(After(tables[0], cursor), pageSize);
      var answers := Served(tables, cursor, pageSize);
      OnThePageOrPastIt(tables[0], cursor, pageSize, c);
      PagesAdvance(tables[0], cursor, pageSize);
      if |page| == pageSize {
        var next := LastCursor(page, cursor);
        assert answers[1..] == Served(tables[1..], next, pageSize);
        var rest := Paged(answers[1..], next, pageSize);
        assert Paged(answers, cursor, pageSize) == Prepend(page, rest);
        if rest.Finished? {
          if !Has(page, c) { PresentRowsAreWritten(tables[1..], next, pageSize, c); }
          HasInEither(page, rest.rows, c);
        }
      }
    }
  }

  lemma HasInEither<D>(a: seq<Row<D>>, b: seq<Row<D>>, c: Cursor)
    ensures Has(a + b, c) <==> Has(a, c) || Has(b, c)
  {
    assert forall i :: 0 <= i < |a| ==> (a + b)[i] == a[i];
    assert forall i :: 0 <= i < |b| ==> (a + b)[|a| + i] == b[i];
  }

  /** Every row present throughout a finished export is written exactly once, in cursor order. */
  lemma PresentRowsAreWrittenExactlyOnce<D>(tables: seq<seq<Row<D>>>, pageSize: nat, c: Cursor)
    requires pageSize > 0 && AllIncreasing(tables)
    requires Paged(Served(tables, None, pageSize), None, pageSize).Finished?
    requires forall k :: 0 <= k < |tables| ==> Has(tables[k], c)
    ensures var rows := Paged(Served(tables, None, pageSize), None, pageSize).rows;
            && Increasing(rows)
            && exists i :: 0 <= i < |rows| && rows[i].cursor == c &&
                 forall j :: 0 <= j < |rows| && rows[j].cursor == c ==> j == i
  {
    PresentRowsAreWritten(tables, None, pageSize, c);
    WrittenRowsIncrease(Served(tables, None, pageSize), None, pageSize);
    FoundOnce(Paged(Served(tables, None, pageSize), None, pageSize).rows, c);
  }

  lemma FoundOnce<D>(rows: seq<Row<D>>, c: Cursor)
    requires Increasing(rows) && Has(rows, c)
    ensures exists i :: 0 <= i < |rows| && rows[i].cursor == c &&
              forall j :: 0 <= j < |rows| && rows[j].cursor == c ==> j == i
  {
    var i :| 0 <= i < |rows| && rows[i].cursor == c;
    assert forall j :: 0 <= j < |rows| && rows[j].cursor == c ==> j == i;
  }

  // ----- On a table nobody changes -----

  /** How many rows so many full pages hold. */
  function Capacity(queries: nat, pageSize: nat): nat {
    if queries == 0 then 0 else pageSize + Capacity(queries - 1, pageSize)
  }

  lemma {:induction false} CapacityIsProduct(queries: nat, pageSize: nat)
    ensures Capacity(queries, pageSize) == queries * pageSize
  {
    if queries > 0 { CapacityIsProduct(queries - 1, pageSize); }
  }

  lemma PageThenRest<D>(table: seq<Row<D>>, done: nat, pageSize: nat)
    requires pageSize > 0 && done + pageSize <= |table|
    ensures var page := Take(table[done..], pageSize);
            && page + table[done + pageSize..] == table[done..]
            && forall cursor: Option<Cursor> :: LastCursor(page, cursor) == LastCursor(table[..done + pageSize], None)
  {
    var page := Take(table[done..], pageSize);
    assert page == table[done..done + pageSize];
  }

  lemma OneFullPage<D>(tables: seq<seq<Row<D>>>, cursor: Option<Cursor>, pageSize: nat)
    requires pageSize > 0 && tables != [] && Increasing(tables[0]) && |After(tables[0], cursor)| >= pageSize
    ensures var page := Take(After(tables[0], cursor), pageSize);
            var next := LastCursor(page, cursor);
            Paged(Served(tables, cursor, pageSize), cursor, pageSize) ==
            Prepend(page, Paged(Served(tables[1..], next, pageSize), next, pageSize))
  {
    var page := Take(After(tables[0], cursor), pageSize);
    PagesAdvance(tables[0], cursor, pageSize);
    assert Served(tables, cursor, pageSize)[1..] == Served(tables[1..], LastCursor(page, cursor), pageSize);
  }

  lemma OneShortPage<D>(tables: seq<seq<Row<D>>>, cursor: Option<Cursor>, pageSize: nat)
    requires tables != [] && Increasing(tables[0]) && |After(tables[0], cursor)| < pageSize
    ensures Paged(Served(tables, cursor, pageSize), cursor, pageSize) == Finished(After(tables[0], cursor))
  {
    PagesAdvance(tables[0], cursor, pageSize);
  }

  lemma AfterTheDone<D>(table: seq<Row<D>>, done: nat)
    requires Increasing(table) && done <= |table|
    ensures After(table, LastCursor(table[..done], None)) == table[done..]
  {
    if done > 0 {
      var cursor := Some(table[done - 1].cursor);
      assert LastCursor(table[..done], None) == cursor;
      var first := FirstPast(table, cursor, 0);
      assert first >= done;
      assert done < |table| ==> Past(cursor, table[done].cursor);
    }
  }

  /** The answers still to come when so many queries are left and the first `done` rows have been written. */
  ghost function Remaining<D>(table: seq<Row<D>>, done: nat, pageSize: nat, queries: nat): PagingResult<D>
    requires done <= |table|
  {
    var cursor := LastCursor(table[..done], None);
    Paged(Served(seq(queries, _ => table), cursor, pageSize), cursor, pageSize)
  }

  lemma LastPageEndsIt<D>(table: seq<Row<D>>, done: nat, pageSize: nat, queries: nat)
    requires Increasing(table) && done <= |table| && |table| - done < pageSize && queries > 0
    ensures Remaining(table, done, pageSize, queries) == Finished(table[done..])
  {
    AfterTheDone(table, done);
    OneShortPage(seq(queries, _ => table), LastCursor(table[..done], None), pageSize);
  }

  lemma FullPageMovesOn<D>(table: seq<Row<D>>, done: nat, pageSize: nat, queries: nat)
    requires Increasing(table) && pageSize > 0 && done + pageSize <= |table| && queries > 0
    ensures Remaining(table, done, pageSize, queries) ==
            Prepend(Take(table[done..], pageSize), Remaining(table, done + pageSize, pageSize, queries - 1))
  {
    var tables := seq(queries, _ => table);
    assert tables[1..] == seq(queries - 1, _ => table);
    AfterTheDone(table, done);
    OneFullPage(tables, LastCursor(table[..done], None), pageSize);
    PageThenRest(table, done, pageSize);
  }

  lemma FullPageFinishes<D>(table: seq<Row<D>>, done: nat, pageSize: nat, queries: nat)
    requires Increasing(table) && pageSize > 0 && done + pageSize <= |table| && queries > 0
    requires Remaining(table, done + pageSize, pageSize, queries - 1) == Finished(table[done + pageSize..])
    ensures Remaining(table, done, pageSize, queries) == Finished(table[done..])
  {
    FullPageMovesOn(table, done, pageSize, queries);
    PageThenRest(table, done, pageSize);
  }

  /** The loop ends within as many queries as it takes to see more rows than there are, having written them all. */
  lemma {:induction false} FixedTable<D>(table: seq<Row<D>>, done: nat, pageSize: nat, queries: nat)
    requires Increasing(table) && pageSize > 0 && done <= |table| && |table| - done < Capacity(queries, pageSize)
    ensures Remaining(table, done, pageSize, queries) == Finished(table[done..])
    decreases queries
  {
    var rest := |table| - done;
    if rest < pageSize {
      LastPageEndsIt(table, done, pageSize, queries);
    } else {
      assert rest - pageSize < Capacity(queries - 1, pageSize);
      FixedTable(table, done + pageSize, pageSize, queries - 1);
      FullPageFinishes(table, done, pageSize, queries);
    }
  }

  /** On a fixed table the export terminates, and what it writes is the table. */
  lemma FixedTableIsExportedWhole<D>(table: seq<Row<D>>, pageSize: nat, queries: nat)
    requires Increasing(table) && pageSize > 0 && |table| < queries * pageSize
    ensures Paged(Served(seq(queries, _ => table), None, pageSize), None, pageSize) == Finished(table)
  {
    CapacityIsProduct(queries, pageSize);
    FixedTable(table, 0, pageSize, queries);
    assert table[..0] == [] && table[0..] == table;
  }
}
