/**
 * One row through validateRow. The domain validation is a parameter: a function of what the overlaid row
 * reads as, field by field.
 */
module ImportRows {
  import opened Basics
  import opened ImportMapping
  import opened ImportOverlay

  /** An issue as it is stored with its row. */
  datatype Issue = Issue(code: string, column: Option<string>, field: string, message: string)

  /** An issue as the domain validation raises it. */
  datatype RowIssue = RowIssue(code: string, field: string, message: string)

  /** What validateImportRow returns for a row; `N` is a normalized invitation. */
  datatype DomainResult<N> = DomainResult(normalized: Option<N>, issues: seq<RowIssue>)

  datatype RowError = SourceNotARecord | CorrectionNotARecord

  datatype ImportRow = ImportRow(id: string, number: int, source: Json, corrected: Json, storedErrors: Json)

  datatype Candidate<N> = Candidate(id: string, number: int, normalized: Option<N>, errors: seq<Issue>)

  /** toPersistedDomainIssue: a domain issue is stored without a column. */
  function ToPersisted(issue: RowIssue): Issue {
    Issue(issue.code, None, issue.field, issue.message)
  }

  function Persisted(issues: seq<RowIssue>): seq<Issue> {
    seq(|issues|, i requires 0 <= i < |issues| => ToPersisted(issues[i]))
  }

  predicate IsParserCode(code: string) {
    code == "ACTIVE_OR_COMPLEX_CELL_REJECTED" || code == "CELL_TOO_LONG"
  }

  // ----- Reading JSON records -----

  function FieldOf(fields: seq<(string, Json)>, name: string): Json {
    if fields == [] then Null
    else if fields[0].0 == name then fields[0].1
    else FieldOf(fields[1..], name)
  }

  function ToSource(fields: seq<(string, Json)>): Source {
    if fields == [] then map[]
    else ToSource(fields[..|fields| - 1])[fields[|fields| - 1].0 := fields[|fields| - 1].1]
  }

  // ----- Parser errors, as stored and as read back -----

  function EncodeIssue(issue: Issue): Json {
    Object(
      [("code", String(issue.code))] +
      (if issue.column.Some? then [("column", String(issue.column.value))] else []) +
      [("field", String(issue.field)), ("message", String(issue.message))])
  }

  function EncodeIssues(issues: seq<Issue>): Json {
    Array(seq(|issues|, i requires 0 <= i < |issues| => EncodeIssue(issues[i])))
  }

  /** A stored error that counts as a parser error; anything else in the column is dropped. */
  function ReadParserError(value: Json): Option<Issue> {
    if !value.Object? then None
    else
      var code, message := FieldOf(value.fields, "code"), FieldOf(value.fields, "message");
      var column := FieldOf(value.fields, "column");
      if !IsNonEmptyString(code) || !IsParserCode(code.value) || !IsNonEmptyString(message) then None
      else Some(Issue(code.value, if IsNonEmptyString(column) then Some(column.value) else None, "row", message.value))
  }

  function ReadAll(values: seq<Json>): seq<Issue> {
    if values == [] then []
    else
      var last := ReadParserError(values[|values| - 1]);
      ReadAll(values[..|values| - 1]) + if last.Some? then [last.value] else []
  }

  function ReadParserErrors(value: Json): seq<Issue> {
    if value.Array? then ReadAll(value.items) else []
  }

  /** A parser error still stands unless its column is unmapped or has been corrected. */
  predicate StillStands(issue: Issue, mapped: set<string>, corrected: set<string>) {
    issue.column.None? || (issue.column.value in mapped && issue.column.value !in corrected)
  }

  function Standing(issues: seq<Issue>, mapped: set<string>, corrected: set<string>): seq<Issue> {
    if issues == [] then []
    else
      var last := issues[|issues| - 1];
      Standing(issues[..|issues| - 1], mapped, corrected) + if StillStands(last, mapped, corrected) then [last] else []
  }

  // ----- A row -----

  /** What the domain validation gets to see: the cells of the eight import fields, absent ones left out. */
  function Cells(source: Source, mapping: Mapping): map<string, Json> {
    map field | field in IMPORT_FIELDS && field in mapping && mapping[field] in source :: source[mapping[field]]
  }

  function CorrectionsOf(value: Json): Option<Corrections> {
    match value
    case Null => Some([])
    case Object(fields) => Some(fields)
    case _ => None
  }

  function ErrorsOf<N>(
    overlay: Overlay, mapping: Mapping, stored: Json, validate: map<string, Json> -> DomainResult<N>): seq<Issue>
  {
    Standing(ReadParserErrors(stored), mapping.Values, overlay.columns) +
    Persisted(validate(Cells(overlay.source, overlay.mapping)).issues)
  }

  /** A stored parser error is kept unless it names a column that is unmapped or that a correction was written to. */
  ghost predicate IsKept(source: Source, mapping: Mapping, corrections: Corrections, issue: Issue) {
    issue.column.None? ||
    (issue.column.value in mapping.Values && !IsCorrected(source, mapping, corrections, issue.column.value))
  }

  /** The stored errors at these positions, in their order, start the list of errors. */
  ghost predicate StartsWithThoseAt(errors: seq<Issue>, stored: seq<Issue>, at: seq<int>) {
    && |at| <= |errors|
    && (forall i :: 0 <= i < |at| ==> 0 <= at[i] < |stored| && errors[i] == stored[at[i]])
    && (forall i, j :: 0 <= i < j < |at| ==> at[i] < at[j])
  }

  lemma {:induction false} StandingPicks(issues: seq<Issue>, mapped: set<string>, corrected: set<string>)
    returns (at: seq<int>)
    ensures StartsWithThoseAt(Standing(issues, mapped, corrected), issues, at)
    ensures |at| == |Standing(issues, mapped, corrected)|
    ensures forall j :: 0 <= j < |issues| ==> (j in at <==> StillStands(issues[j], mapped, corrected))
  {
    at := [];
    if issues != [] {
      var n := |issues| - 1;
      at := StandingPicks(issues[..n], mapped, corrected);
      if StillStands(issues[n], mapped, corrected) { at := at + [n]; }
    }
  }

  /**
   * The errors of a row: the stored parser errors that are kept, all of them and in their order, followed by
   * what the domain validation raises on the corrected cells.
   */
  lemma ErrorsAreKeptThenRaised<N>(
    source: Source, mapping: Mapping, corrections: Corrections, stored: Json,
    validate: map<string, Json> -> DomainResult<N>) returns (at: seq<int>)
    ensures var overlay := Apply(source, mapping, corrections);
            var read, errors := ReadParserErrors(stored), ErrorsOf(overlay, mapping, stored, validate);
            && StartsWithThoseAt(errors, read, at)
            && (forall j :: 0 <= j < |read| ==> (j in at <==> IsKept(source, mapping, corrections, read[j])))
            && var raised := validate(Cells(overlay.source, overlay.mapping)).issues;
               |errors| == |at| + |raised| &&
               forall j :: 0 <= j < |raised| ==>
                 errors[|at| + j] == Issue(raised[j].code, None, raised[j].field, raised[j].message)
  {
    var overlay, read := Apply(source, mapping, corrections), ReadParserErrors(stored);
    at := StandingPicks(read, mapping.Values, overlay.columns);
    forall j | 0 <= j < |read| ensures j in at <==> IsKept(source, mapping, corrections, read[j]) {
      if read[j].column.Some? { CorrectedColumnsExactly(source, mapping, corrections, read[j].column.value); }
    }
  }

  /** An error that names a column is there exactly when it was stored, is mapped and has not been corrected. */
  lemma ColumnErrorsExactly<N>(
    source: Source, mapping: Mapping, corrections: Corrections, stored: Json,
    validate: map<string, Json> -> DomainResult<N>, issue: Issue)
    requires issue.column.Some?
    ensures issue in ErrorsOf(Apply(source, mapping, corrections), mapping, stored, validate) <==>
            issue in ReadParserErrors(stored) && issue.column.value in mapping.Values &&
            !IsCorrected(source, mapping, corrections, issue.column.value)
  {
    var errors := ErrorsOf(Apply(source, mapping, corrections), mapping, stored, validate);
    var read := ReadParserErrors(stored);
    var at := ErrorsAreKeptThenRaised(source, mapping, corrections, stored, validate);
    if issue in errors {
      var raised := validate(
        Cells(Apply(source, mapping, corrections).source, Apply(source, mapping, corrections).mapping)).issues;
      forall k | |at| <= k < |errors| ensures errors[k].column.None? {
        assert errors[|at| + (k - |at|)] == Issue(
          raised[k - |at|].code, None, raised[k - |at|].field, raised[k - |at|].message);
      }
      var i :| 0 <= i < |at| && errors[i] == issue;
      assert read[at[i]] == issue && at[i] in at;
    }
    if issue in read && IsKept(source, mapping, corrections, issue) {
      var j :| 0 <= j < |read| && read[j] == issue;
      var i :| 0 <= i < |at| && at[i] == j;
      assert errors[i] == issue;
    }
  }

  /** Validates one row: the corrected cells are judged, and parser errors that still stand are kept. */
  method ValidateRow<N>(row: ImportRow, mapping: Mapping, validate: map<string, Json> -> DomainResult<N>)
    returns (result: Result<Candidate<N>, RowError>)
    ensures result == Err(SourceNotARecord) <==> !row.source.Object?
    ensures result == Err(CorrectionNotARecord) <==>
              row.source.Object? && !row.corrected.Object? && !row.corrected.Null?
    ensures result.Ok? ==>
              var corrections := if row.corrected.Object? then row.corrected.fields else [];
              var overlay := Apply(ToSource(row.source.fields), mapping, corrections);
              var candidate := result.value;
              && candidate.id == row.id && candidate.number == row.number
              && candidate.errors == ErrorsOf(overlay, mapping, row.storedErrors, validate)
              && candidate.normalized ==
                 if candidate.errors == [] then validate(Cells(overlay.source, overlay.mapping)).normalized else None
    ensures result.Ok? ==>
              var source := ToSource(row.source.fields);
              var corrections := if row.corrected.Object? then row.corrected.fields else [];
              forall issue: Issue :: issue.column.Some? ==>
                (issue in result.value.errors <==>
                   issue in ReadParserErrors(row.storedErrors) && issue.column.value in mapping.Values &&
                   !IsCorrected(source, mapping, corrections, issue.column.value))
  {
    if !row.source.Object? { return Err(SourceNotARecord); }
    var corrections := CorrectionsOf(row.corrected);
    if corrections.None? { return Err(CorrectionNotARecord); }
    var overlay := ApplyCorrections(ToSource(row.source.fields), mapping, corrections.value);
    var parserErrors := Standing(ReadParserErrors(row.storedErrors), mapping.Values, overlay.columns);
    var validation := validate(Cells(overlay.source, overlay.mapping));
    var errors := parserErrors + Persisted(validation.issues);
    forall issue: Issue | issue.column.Some? {
      ColumnErrorsExactly(
        ToSource(row.source.fields), mapping, corrections.value, row.storedErrors, validate, issue);
    }
    result := Ok(Candidate(row.id, row.number, if errors == [] then validation.normalized else None, errors));
  }

  /** With an exact overlay, the domain validation judges precisely the row overridden by its corrections. */
  lemma ValidationSeesTheCorrectedRow(source: Source, mapping: Mapping, corrections: Corrections, field: string)
    requires DistinctNames(corrections) && Injective(mapping) && HarmlessHeaders(source, mapping, corrections)
    requires field in IMPORT_FIELDS
    ensures var overlay := Apply(source, mapping, corrections);
            var cells := Cells(overlay.source, overlay.mapping);
            Expected(source, mapping, corrections, field) == if field in cells then Some(cells[field]) else None
  {
    HarmlessMeansExact(source, mapping, corrections, field);
  }

  // ----- Validating again -----

  lemma ReadAllSplits(a: seq<Json>, b: seq<Json>)
    ensures ReadAll(a + b) == ReadAll(a) + ReadAll(b)
  {
    if b == [] {
      assert a + b == a;
    } else {
      assert (a + b)[..|a + b| - 1] == a + b[..|b| - 1];
    }
  }

  lemma StandingSplits(a: seq<Issue>, b: seq<Issue>, mapped: set<string>, corrected: set<string>)
    ensures Standing(a + b, mapped, corrected) == Standing(a, mapped, corrected) + Standing(b, mapped, corrected)
  {
    if b == [] {
      assert a + b == a;
    } else {
      assert (a + b)[..|a + b| - 1] == a + b[..|b| - 1];
    }
  }

  /** A parser issue as readParserErrors produces it. */
  predicate IsParserIssue(issue: Issue) {
    !IsBlank(issue.code) && IsParserCode(issue.code) && !IsBlank(issue.message) && issue.field == "row" &&
    (issue.column.Some? ==> !IsBlank(issue.column.value))
  }

  lemma ParserCodesAreNotBlank(code: string)
    ensures IsParserCode(code) ==> !IsBlank(code)
  {
    if IsParserCode(code) { assert code[0] in code && !IsSpace(code[0]); }
  }

  /**
   * Persisting an issue and reading it back gives the issue itself if it has one of the parser's two codes
   * and a message, and nothing otherwise.
   */
  lemma IssueRoundTrip(issue: Issue)
    requires issue.column.Some? ==> !IsBlank(issue.column.value)
    ensures ReadParserError(EncodeIssue(issue)) ==
            if (issue.code == "ACTIVE_OR_COMPLEX_CELL_REJECTED" || issue.code == "CELL_TOO_LONG") &&
               !IsBlank(issue.message)
            then Some(issue.(field := "row")) else None
  {
    ParserCodesAreNotBlank(issue.code);
    IssueReadsBack(issue);
  }

  lemma IssueReadsBack(issue: Issue)
    requires issue.column.Some? ==> !IsBlank(issue.column.value)
    ensures ReadParserError(EncodeIssue(issue)) ==
            if !IsBlank(issue.code) && IsParserCode(issue.code) && !IsBlank(issue.message)
            then Some(issue.(field := "row")) else None
  {
    var fields := EncodeIssue(issue).fields;
    var last := |fields| - 1;
    assert |"code"| == 4 && |"column"| == 6 && |"field"| == 5 && |"message"| == 7;
    assert fields[0] == ("code", String(issue.code)) && fields[last] == ("message", String(issue.message));
    assert fields[last - 1] == ("field", String(issue.field));
    assert issue.column.Some? ==> fields[1] == ("column", String(issue.column.value));
    FieldIsFound(fields, 0);
    FieldIsFound(fields, last);
    if issue.column.Some? { FieldIsFound(fields, 1); } else { FieldIsMissing(fields, "column"); }
  }

  lemma {:induction false} FieldIsFound(fields: seq<(string, Json)>, i: nat)
    requires i < |fields| && forall k :: 0 <= k < i ==> fields[k].0 != fields[i].0
    ensures FieldOf(fields, fields[i].0) == fields[i].1
  {
    if i > 0 { FieldIsFound(fields[1..], i - 1); }
  }

  lemma {:induction false} FieldIsMissing(fields: seq<(string, Json)>, name: string)
    requires forall k :: 0 <= k < |fields| ==> fields[k].0 != name
    ensures FieldOf(fields, name) == Null
  {
    if fields != [] { FieldIsMissing(fields[1..], name); }
  }

  lemma {:induction false} ReadsAreParserIssues(values: seq<Json>)
    ensures forall issue :: issue in ReadAll(values) ==> IsParserIssue(issue)
  {
    if values != [] { ReadsAreParserIssues(values[..|values| - 1]); }
  }

  lemma {:induction false} StandingIsAPart(issues: seq<Issue>, mapped: set<string>, corrected: set<string>)
    ensures forall issue :: issue in Standing(issues, mapped, corrected) ==>
              issue in issues && StillStands(issue, mapped, corrected)
  {
    if issues != [] { StandingIsAPart(issues[..|issues| - 1], mapped, corrected); }
  }

  lemma {:induction false} StandingOfStanding(issues: seq<Issue>, mapped: set<string>, corrected: set<string>)
    requires forall issue :: issue in issues ==> StillStands(issue, mapped, corrected)
    ensures Standing(issues, mapped, corrected) == issues
  {
    if issues != [] {
      var front, last := issues[..|issues| - 1], issues[|issues| - 1];
      assert issues == front + [last];
      StandingOfStanding(front, mapped, corrected);
      assert StillStands(last, mapped, corrected);
    }
  }

  lemma EncodeSplits(a: seq<Issue>, b: seq<Issue>)
    ensures EncodeIssues(a + b).items == EncodeIssues(a).items + EncodeIssues(b).items
  {
  }

  lemma ReadOneMore(values: seq<Json>, value: Json)
    ensures ReadAll(values + [value]) ==
            ReadAll(values) + if ReadParserError(value).Some? then [ReadParserError(value).value] else []
  {
    assert (values + [value])[..|values|] == values;
  }

  lemma EncodeOneMore(issues: seq<Issue>, issue: Issue)
    ensures EncodeIssues(issues + [issue]).items == EncodeIssues(issues).items + [EncodeIssue(issue)]
  {
  }

  lemma OneMoreRoundTrip(before: seq<Issue>, last: Issue)
    requires IsParserIssue(last)
    ensures ReadParserErrors(EncodeIssues(before + [last])) == ReadParserErrors(EncodeIssues(before)) + [last]
  {
    IssueRoundTrip(last);
    EncodeOneMore(before, last);
    ReadOneMore(EncodeIssues(before).items, EncodeIssue(last));
  }

  lemma {:induction false} ParserIssuesRoundTrip(issues: seq<Issue>)
    requires forall issue :: issue in issues ==> IsParserIssue(issue)
    ensures ReadParserErrors(EncodeIssues(issues)) == issues
  {
    if issues != [] {
      var n := |issues| - 1;
      var before, last := issues[..n], issues[n];
      assert issues == before + [last] && last in issues;
      ParserIssuesRoundTrip(before);
      OneMoreRoundTrip(before, last);
    }
  }

  /** A domain issue that would be mistaken for a parser issue when it is read back. */
  predicate LooksLikeParserIssue(issue: RowIssue) {
    !IsBlank(issue.code) && IsParserCode(issue.code) && !IsBlank(issue.message)
  }

  /** What one more domain issue adds to what is read back: nothing, or an echo that always stands. */
  lemma OneMoreReadBack(issues: seq<RowIssue>, last: RowIssue, mapped: set<string>, corrected: set<string>)
    ensures Standing(ReadParserErrors(EncodeIssues(Persisted(issues + [last]))), mapped, corrected) ==
            Standing(ReadParserErrors(EncodeIssues(Persisted(issues))), mapped, corrected) +
            if LooksLikeParserIssue(last) then [ToPersisted(last).(field := "row")] else []
  {
    var before, added := EncodeIssues(Persisted(issues)).items, EncodeIssue(ToPersisted(last));
    assert Persisted(issues + [last]) == Persisted(issues) + [ToPersisted(last)];
    EncodeOneMore(Persisted(issues), ToPersisted(last));
    ReadOneMore(before, added);
    IssueRoundTrip(ToPersisted(last));
    if LooksLikeParserIssue(last) {
      var echo := ToPersisted(last).(field := "row");
      assert ReadParserError(added) == Some(echo);
      StandingSplits(ReadAll(before), [echo], mapped, corrected);
      StandingOfStanding([echo], mapped, corrected);
    } else {
      assert ReadAll(before + [added]) == ReadAll(before);
      assert Standing(ReadAll(before), mapped, corrected) + [] == Standing(ReadAll(before), mapped, corrected);
    }
  }

  lemma {:induction false} DomainIssuesReadBack(issues: seq<RowIssue>, mapped: set<string>, corrected: set<string>)
    ensures Standing(ReadParserErrors(EncodeIssues(Persisted(issues))), mapped, corrected) == [] <==>
            forall issue :: issue in issues ==> !LooksLikeParserIssue(issue)
  {
    if issues != [] {
      var before, last := issues[..|issues| - 1], issues[|issues| - 1];
      assert issues == before + [last];
      DomainIssuesReadBack(before, mapped, corrected);
      OneMoreReadBack(before, last, mapped, corrected);
    }
  }

  /** What is read back of a first validation's errors: the parser errors kept, and any echo of the others. */
  lemma ReadBack(kept: seq<Issue>, domain: seq<Issue>, mapped: set<string>, corrected: set<string>)
    requires forall issue :: issue in kept ==> IsParserIssue(issue) && StillStands(issue, mapped, corrected)
    ensures Standing(ReadParserErrors(EncodeIssues(kept + domain)), mapped, corrected) ==
            kept + Standing(ReadParserErrors(EncodeIssues(domain)), mapped, corrected)
  {
    ParserIssuesRoundTrip(kept);
    EncodeSplits(kept, domain);
    ReadAllSplits(EncodeIssues(kept).items, EncodeIssues(domain).items);
    StandingSplits(kept, ReadParserErrors(EncodeIssues(domain)), mapped, corrected);
    StandingOfStanding(kept, mapped, corrected);
  }

  /**
   * Validating a row again, from the errors the first validation stored and under the same mapping and
   * corrections, gives the same errors exactly when the domain raised nothing that reads as a parser issue.
   */
  lemma RevalidationIsAFixpoint<N>(
    overlay: Overlay, mapping: Mapping, stored: Json, validate: map<string, Json> -> DomainResult<N>)
    ensures var errors := ErrorsOf(overlay, mapping, stored, validate);
            ErrorsOf(overlay, mapping, EncodeIssues(errors), validate) == errors <==>
            forall issue :: issue in validate(Cells(overlay.source, overlay.mapping)).issues ==>
              !LooksLikeParserIssue(issue)
  {
    var mapped, corrected := mapping.Values, overlay.columns;
    var raised := validate(Cells(overlay.source, overlay.mapping)).issues;
    var domain := Persisted(raised);
    var read := ReadParserErrors(stored);
    var kept := Standing(read, mapped, corrected);
    if stored.Array? { ReadsAreParserIssues(stored.items); }
    StandingIsAPart(read, mapped, corrected);
    ReadBack(kept, domain, mapped, corrected);
    DomainIssuesReadBack(raised, mapped, corrected);
    var echoed := Standing(ReadParserErrors(EncodeIssues(domain)), mapped, corrected);
    if echoed == [] {
      assert kept + echoed == kept;
    } else {
      assert |kept + echoed + domain| > |kept + domain|;
    }
  }

  // ----- Stored values -----

  /** A row's source has the fields of the stored object, and no others. */
  lemma {:induction false} SourceReadsTheFields(fields: seq<(string, Json)>, name: string)
    requires DistinctNames(fields)
    ensures name in ToSource(fields) <==> exists i :: 0 <= i < |fields| && fields[i].0 == name
    ensures forall i :: 0 <= i < |fields| && fields[i].0 == name ==> ToSource(fields)[name] == fields[i].1
  {
    if fields != [] {
      var n := |fields| - 1;
      SourceReadsTheFields(fields[..n], name);
      if i :| 0 <= i < n && fields[i].0 == name {
        assert fields[..n][i].0 == name && fields[n].0 != name;
      }
    }
  }

  ghost predicate IsReadFrom(item: Json, issue: Issue) {
    item.Object? &&
    var code, message, column :=
      FieldOf(item.fields, "code"), FieldOf(item.fields, "message"), FieldOf(item.fields, "column");
    && code == String(issue.code) && message == String(issue.message) && issue.field == "row"
    && (issue.code == "ACTIVE_OR_COMPLEX_CELL_REJECTED" || issue.code == "CELL_TOO_LONG")
    && !IsBlank(issue.message)
    && (if column.String? && !IsBlank(column.value) then issue.column == Some(column.value) else issue.column == None)
  }

  lemma OneStoredErrorExactly(item: Json, issue: Issue)
    ensures ReadParserError(item) == Some(issue) <==> IsReadFrom(item, issue)
  {
    ParserCodesAreNotBlank(issue.code);
  }

  lemma StoredErrorsOneMore(items: seq<Json>, last: Json, issue: Issue)
    ensures issue in ReadAll(items + [last]) <==> issue in ReadAll(items) || ReadParserError(last) == Some(issue)
  {
    ReadOneMore(items, last);
  }

  /** What is read of a stored list: an issue for each of its objects that has a parser code and a message. */
  lemma {:induction false} StoredErrorsExactly(items: seq<Json>, issue: Issue)
    ensures issue in ReadParserErrors(Array(items)) <==> exists i :: 0 <= i < |items| && IsReadFrom(items[i], issue)
  {
    if items != [] {
      var n := |items| - 1;
      StoredErrorsExactly(items[..n], issue);
      assert items == items[..n] + [items[n]];
      StoredErrorsOneMore(items[..n], items[n], issue);
      OneStoredErrorExactly(items[n], issue);
      assert forall i :: 0 <= i < n ==> items[..n][i] == items[i];
    }
  }
}
