/**
 * The CSV writer of the export processor, and a parser for the grammar of section 2 of RFC 4180 that
 * inverts it.
 */
module ExportCsv {
  import opened Basics

  // ----- Cells -----

  datatype CellValue = NumberCell(number: int) | TextCell(text: string)

  predicate StartsFormula(text: string) {
    text != "" && text[0] in {'=', '+', '-', '@', '\t', '\r'}
  }

  /** safeSpreadsheetText: an apostrophe in front of what a spreadsheet would run as a formula. */
  function SafeText(text: string): string {
    if StartsFormula(text) then "'" + text else text
  }

  function Digits(n: nat): string {
    if n < 10 then [('0' as int + n) as char] else Digits(n / 10) + Digits(n % 10)
  }

  function NumberText(n: int): string {
    if n < 0 then "-" + Digits(-n) else Digits(n)
  }

  function CellText(value: CellValue): string {
    match value
    case NumberCell(n) => NumberText(n)
    case TextCell(text) => SafeText(text)
  }

  function DoubleQuotes(text: string): string {
    if text == "" then ""
    else (if text[0] == '"' then "\"\"" else [text[0]]) + DoubleQuotes(text[1..])
  }

  function CsvCell(value: CellValue): string {
    "\"" + DoubleQuotes(CellText(value)) + "\""
  }

  function CsvCells(values: seq<CellValue>): string {
    if values == [] then ""
    else if |values| == 1 then CsvCell(values[0])
    else CsvCell(values[0]) + "," + CsvCells(values[1..])
  }

  function CsvLine(values: seq<CellValue>): string {
    CsvCells(values) + "\r\n"
  }

  // ----- Rows -----

  datatype ExportRow = ExportRow(
    invitationId: string, displayName: string, contactName: string, phoneE164: Option<string>,
    invitationType: string, maxCompanions: int, guestNames: seq<string>, rsvpStatus: string,
    expectedAttendees: int, checkedInCount: int, latestDeliveryStatus: Option<string>)

  function JoinNames(names: seq<string>): string {
    if names == [] then "" else if |names| == 1 then names[0] else names[0] + "؛ " + JoinNames(names[1..])
  }

  function OrEmpty(text: Option<string>): string {
    if text.Some? then text.value else ""
  }

  function Remaining(row: ExportRow): int {
    if row.expectedAttendees - row.checkedInCount < 0 then 0 else row.expectedAttendees - row.checkedInCount
  }

  /** exportColumns, by key. */
  datatype Column =
    | InvitationId | DisplayName | ContactName | Phone | InvitationType | MaxCompanions | GuestNames
    | RsvpStatus | ExpectedAttendees | CheckedIn | RemainingGuests | LatestDeliveryStatus

  function Columns(includePhone: bool): (columns: seq<Column>)
    ensures columns != []
  {
    [InvitationId, DisplayName, ContactName] + (if includePhone then [Phone] else []) +
    [InvitationType, MaxCompanions, GuestNames, RsvpStatus, ExpectedAttendees, CheckedIn, RemainingGuests,
     LatestDeliveryStatus]
  }

  function Header(column: Column): string {
    match column
    case InvitationId => "معرّف الدعوة"
    case DisplayName => "اسم المجموعة"
    case ContactName => "اسم جهة الاتصال"
    case Phone => "رقم الهاتف"
    case InvitationType => "نوع الدعوة"
    case MaxCompanions => "عدد المرافقين"
    case GuestNames => "أسماء الضيوف"
    case RsvpStatus => "حالة الرد"
    case ExpectedAttendees => "الحضور المتوقع"
    case CheckedIn => "تم تسجيل دخولهم"
    case RemainingGuests => "المتبقي"
    case LatestDeliveryStatus => "آخر حالة توصيل"
  }

  /** The value a column hands to the writer; free text is made safe here, and once more by the CSV cell. */
  function Value(column: Column, row: ExportRow): CellValue {
    match column
    case InvitationId => TextCell(row.invitationId)
    case DisplayName => TextCell(SafeText(row.displayName))
    case ContactName => TextCell(SafeText(row.contactName))
    case Phone => TextCell(SafeText(OrEmpty(row.phoneE164)))
    case InvitationType => TextCell(row.invitationType)
    case MaxCompanions => NumberCell(row.maxCompanions)
    case GuestNames => TextCell(SafeText(JoinNames(row.guestNames)))
    case RsvpStatus => TextCell(row.rsvpStatus)
    case ExpectedAttendees => NumberCell(row.expectedAttendees)
    case CheckedIn => NumberCell(row.checkedInCount)
    case RemainingGuests => NumberCell(Remaining(row))
    case LatestDeliveryStatus => TextCell(OrEmpty(row.latestDeliveryStatus))
  }

  /** The plain content of a column, before any escaping. */
  function Content(column: Column, row: ExportRow): CellValue {
    match column
    case InvitationId => TextCell(row.invitationId)
    case DisplayName => TextCell(row.displayName)
    case ContactName => TextCell(row.contactName)
    case Phone => TextCell(OrEmpty(row.phoneE164))
    case InvitationType => TextCell(row.invitationType)
    case MaxCompanions => NumberCell(row.maxCompanions)
    case GuestNames => TextCell(JoinNames(row.guestNames))
    case RsvpStatus => TextCell(row.rsvpStatus)
    case ExpectedAttendees => NumberCell(row.expectedAttendees)
    case CheckedIn => NumberCell(row.checkedInCount)
    case RemainingGuests => NumberCell(Remaining(row))
    case LatestDeliveryStatus => TextCell(OrEmpty(row.latestDeliveryStatus))
  }

  function HeaderCells(columns: seq<Column>): seq<CellValue> {
    seq(|columns|, i requires 0 <= i < |columns| => TextCell(Header(columns[i])))
  }

  function RowCells(columns: seq<Column>, row: ExportRow): seq<CellValue> {
    seq(|columns|, i requires 0 <= i < |columns| => Value(columns[i], row))
  }

  /** The lines of a grid of cells. */
  function Lines(grid: seq<seq<CellValue>>): string {
    if grid == [] then "" else Lines(grid[..|grid| - 1]) + CsvLine(grid[|grid| - 1])
  }

  function GridOf(columns: seq<Column>, rows: seq<ExportRow>): seq<seq<CellValue>> {
    [HeaderCells(columns)] + seq(|rows|, i requires 0 <= i < |rows| => RowCells(columns, rows[i]))
  }

  const BYTE_ORDER_MARK := "\U{FEFF}"

  /** The whole file: a byte order mark, the header line, and a line for every row. */
  function Document(columns: seq<Column>, rows: seq<ExportRow>): string {
    BYTE_ORDER_MARK + Lines(GridOf(columns, rows))
  }

  // ----- The writer -----

  function Joined(chunks: seq<string>): string {
    if chunks == [] then "" else Joined(chunks[..|chunks| - 1]) + chunks[|chunks| - 1]
  }

  lemma JoinOneMore(chunks: seq<string>, chunk: string)
    ensures Joined(chunks + [chunk]) == Joined(chunks) + chunk
  {
    assert (chunks + [chunk])[..|chunks|] == chunks;
  }

  /** The chunks spell the file of these rows. */
  predicate Spells(chunks: seq<string>, columns: seq<Column>, rows: seq<ExportRow>) {
    Joined(chunks) == Document(columns, rows)
  }

  lemma OneMoreLine(chunks: seq<string>, columns: seq<Column>, rows: seq<ExportRow>, row: ExportRow)
    requires Spells(chunks, columns, rows)
    ensures Spells(chunks + [CsvLine(RowCells(columns, row))], columns, rows + [row])
  {
    var cells := RowCells(columns, row);
    GridOneMore(columns, rows, row);
    LinesOneMore(GridOf(columns, rows), cells);
    JoinOneMore(chunks, CsvLine(cells));
    Associate(BYTE_ORDER_MARK, Lines(GridOf(columns, rows)), CsvLine(cells));
  }

  lemma TakeOneMore(written: seq<ExportRow>, rows: seq<ExportRow>, i: nat)
    requires i < |rows|
    ensures (written + rows[..i]) + [rows[i]] == written + rows[..i + 1]
  {
  }

  lemma Associate<T>(a: seq<T>, b: seq<T>, c: seq<T>)
    ensures a + (b + c) == (a + b) + c
  {
  }

  lemma GridOneMore(columns: seq<Column>, rows: seq<ExportRow>, row: ExportRow)
    ensures GridOf(columns, rows + [row]) == GridOf(columns, rows) + [RowCells(columns, row)]
  {
  }

  lemma LinesOneMore(grid: seq<seq<CellValue>>, cells: seq<CellValue>)
    ensures Lines(grid + [cells]) == Lines(grid) + CsvLine(cells)
  {
    assert (grid + [cells])[..|grid|] == grid;
  }

  lemma HeaderAlone(columns: seq<Column>)
    ensures Spells([BYTE_ORDER_MARK + CsvLine(HeaderCells(columns))], columns, [])
  {
    var chunk := BYTE_ORDER_MARK + CsvLine(HeaderCells(columns));
    JoinOneMore([], chunk);
    assert [] + [chunk] == [chunk];
    var grid := GridOf(columns, []);
    assert grid == [] + [HeaderCells(columns)];
    LinesOneMore([], HeaderCells(columns));
    assert Lines(grid) == CsvLine(HeaderCells(columns));
  }

  /** The CSV half of createArtifactWriter. */
  class ArtifactWriter {
    var chunks: seq<string>
    const columns: seq<Column>

    constructor (includePhone: bool)
      ensures columns == Columns(includePhone) && Spells(chunks, columns, [])
    {
      columns := Columns(includePhone);
      chunks := [BYTE_ORDER_MARK + CsvLine(HeaderCells(Columns(includePhone)))];
      new;
      HeaderAlone(columns);
    }

    method AddRows(rows: seq<ExportRow>, ghost written: seq<ExportRow>)
      requires Spells(chunks, columns, written)
      modifies this
      ensures Spells(chunks, columns, written + rows)
    {
      assert written + rows[..0] == written;
      for i := 0 to |rows|
        invariant Spells(chunks, columns, written + rows[..i])
      {
        OneMoreLine(chunks, columns, written + rows[..i], rows[i]);
        TakeOneMore(written, rows, i);
        chunks := chunks + [CsvLine(RowCells(columns, rows[i]))];
      }
      assert rows[..|rows|] == rows;
    }

    /** The text written is the file of all rows added, and reads back as such. */
    method Finish(ghost written: seq<ExportRow>) returns (text: string)
      requires columns != [] && Spells(chunks, columns, written)
      ensures text == Document(columns, written)
      ensures ParseFile(text) == Some(FileTexts(columns, written))
      ensures text != "" && text[0] == '\U{FEFF}'
    {
      text := "";
      for i := 0 to |chunks|
        invariant text == Joined(chunks[..i])
      {
        JoinOneMore(chunks[..i], chunks[i]);
        assert chunks[..i + 1] == chunks[..i] + [chunks[i]];
        text := text + chunks[i];
      }
      assert chunks[..|chunks|] == chunks;
      FileReadsBack(columns, written);
    }
  }

  // ----- Reading it back -----

  datatype Mode = FieldStart | Unquoted | Quoted | QuoteSeen

  /** Where the parser is: the field being read, the finished fields of the record, the finished records. */
  datatype Reader = Reader(mode: Mode, field: string, record: seq<string>, records: seq<seq<string>>)

  const START := Reader(FieldStart, "", [], [])

  function EndField(r: Reader): Reader {
    Reader(FieldStart, "", r.record + [r.field], r.records)
  }

  function EndRecord(r: Reader): Reader {
    Reader(FieldStart, "", [], r.records + [r.record + [r.field]])
  }

  /** The records of a CSV text from the reader's position on; `None` if the text breaks the grammar. */
  function Parse(text: string, r: Reader): Option<seq<seq<string>>> {
    if text == "" then
      if r.mode == Quoted then None
      else if r.mode == FieldStart && r.record == [] then Some(r.records)
      else Some(EndRecord(r).records)
    else
      var c, rest := text[0], text[1..];
      if r.mode == Quoted then
        if c == '"' then Parse(rest, r.(mode := QuoteSeen)) else Parse(rest, r.(field := r.field + [c]))
      else if c == ',' then Parse(rest, EndField(r))
      else if c == '\r' && rest != "" && rest[0] == '\n' then Parse(rest[1..], EndRecord(r))
      else if c == '"' then
        match r.mode
        case FieldStart => Parse(rest, r.(mode := Quoted))
        case QuoteSeen => Parse(rest, r.(mode := Quoted, field := r.field + [c]))
        case _ => None
      else if r.mode == QuoteSeen || c == '\r' || c == '\n' then None
      else Parse(rest, r.(mode := Unquoted, field := r.field + [c]))
  }

  /** The records of a whole file: a byte order mark is not part of the first field. */
  function ParseFile(text: string): Option<seq<seq<string>>> {
    if BYTE_ORDER_MARK <= text then Parse(text[1..], START) else Parse(text, START)
  }

  // ----- Escaping -----

  /** Making a text safe twice is making it safe once, and a safe text never starts a formula. */
  lemma SafeTextOnce(text: string)
    ensures SafeText(SafeText(text)) == SafeText(text)
    ensures SafeText(text) == "" || SafeText(text)[0] !in {'=', '+', '-', '@', '\t', '\r'}
    ensures text == "" || text[0] !in {'=', '+', '-', '@', '\t', '\r'} ==> SafeText(text) == text
    ensures text != "" && text[0] in {'=', '+', '-', '@', '\t', '\r'} ==> SafeText(text) == "'" + text
  {
    if StartsFormula(text) { assert SafeText(text)[0] == '\''; }
  }

  /**
   * The safe form does not tell two texts apart exactly when one of them starts a formula and the other is
   * the same text with the apostrophe already there.
   */
  lemma SafeTextConfusesExactly(a: string, b: string)
    ensures SafeText(a) == SafeText(b) <==>
            a == b || (StartsFormula(a) && b == "'" + a) || (StartsFormula(b) && a == "'" + b)
  {
    if StartsFormula(a) && StartsFormula(b) {
      assert SafeText(a)[1..] == a && SafeText(b)[1..] == b;
    }
    if StartsFormula(a) { assert ("'" + a)[0] == '\''; }
    if StartsFormula(b) { assert ("'" + b)[0] == '\''; }
  }

  function DigitsValue(text: string): int {
    if text == "" then 0 else 10 * DigitsValue(text[..|text| - 1]) + (text[|text| - 1] as int - '0' as int)
  }

  function NumberValue(text: string): int {
    if text != "" && text[0] == '-' then -DigitsValue(text[1..]) else DigitsValue(text)
  }

  lemma {:induction false} DigitsReadBack(n: nat)
    ensures DigitsValue(Digits(n)) == n && Digits(n) != "" && Digits(n)[0] != '-'
  {
    if n < 10 {
      assert Digits(n)[..0] == "";
    } else {
      var front, last := Digits(n / 10), Digits(n % 10);
      DigitsReadBack(n / 10);
      assert (front + last)[..|front|] == front && (front + last)[|front|] == last[0];
    }
  }

  /** A number column reads back as the number, negative ones included. */
  lemma NumberReadsBack(n: int)
    ensures NumberValue(NumberText(n)) == n
  {
    DigitsReadBack(if n < 0 then -n else n);
    if n < 0 { assert NumberText(n)[1..] == Digits(-n); }
  }

  lemma {:induction false} QuotedText(text: string, tail: string, r: Reader)
    requires r.mode == Quoted
    ensures Parse(DoubleQuotes(text) + "\"" + tail, r) == Parse(tail, r.(mode := QuoteSeen, field := r.field + text))
  {
    var whole := DoubleQuotes(text) + "\"" + tail;
    if text == "" {
      assert whole[1..] == tail;
      assert r.field + text == r.field;
    } else {
      var rest := DoubleQuotes(text[1..]) + "\"" + tail;
      var next := r.(field := r.field + [text[0]]);
      if text[0] == '"' {
        assert whole[1..][1..] == rest;
        assert Parse(whole, r) == Parse(whole[1..], r.(mode := QuoteSeen));
        assert whole[1..][0] == '"';
      } else {
        assert whole[1..] == rest;
      }
      assert Parse(whole, r) == Parse(rest, next);
      QuotedText(text[1..], tail, next);
      assert next.field + text[1..] == r.field + text;
    }
  }

  lemma QuoteOpens(rest: string, r: Reader)
    requires r.mode == FieldStart
    ensures Parse("\"" + rest, r) == Parse(rest, r.(mode := Quoted))
  {
    assert ("\"" + rest)[1..] == rest;
  }

  lemma CellShape(value: CellValue, tail: string)
    ensures CsvCell(value) + tail == "\"" + (DoubleQuotes(CellText(value)) + "\"" + tail)
  {
  }

  lemma CellReadsBack(value: CellValue, tail: string, r: Reader)
    requires r.mode == FieldStart && r.field == ""
    ensures Parse(CsvCell(value) + tail, r) == Parse(tail, r.(mode := QuoteSeen, field := CellText(value)))
  {
    QuoteOpens(DoubleQuotes(CellText(value)) + "\"" + tail, r);
    CellShape(value, tail);
    QuotedText(CellText(value), tail, r.(mode := Quoted));
    assert "" + CellText(value) == CellText(value);
  }

  function CellTexts(values: seq<CellValue>): seq<string> {
    seq(|values|, i requires 0 <= i < |values| => CellText(values[i]))
  }

  lemma CommaEndsField(tail: string, r: Reader)
    requires r.mode == QuoteSeen
    ensures Parse("," + tail, r) == Parse(tail, EndField(r))
  {
    assert ("," + tail)[1..] == tail;
  }

  lemma BreakEndsRecord(tail: string, r: Reader)
    requires r.mode == QuoteSeen
    ensures Parse("\r\n" + tail, r) == Parse(tail, EndRecord(r))
  {
    var text := "\r\n" + tail;
    assert text[1..] == "\n" + tail;
    assert text[1..][1..] == tail;
  }

  lemma AssociateLine(cell: string, cells: string, tail: string)
    ensures cell + "," + cells + "\r\n" + tail == cell + ("," + ((cells + "\r\n") + tail))
  {
  }

  lemma LineShape(values: seq<CellValue>, tail: string)
    requires values != []
    ensures CsvLine(values) + tail ==
            CsvCell(values[0]) + if |values| == 1 then "\r\n" + tail else "," + (CsvLine(values[1..]) + tail)
  {
    Associate(CsvCell(values[0]), "\r\n", tail);
    if |values| > 1 {
      AssociateLine(CsvCell(values[0]), CsvCells(values[1..]), tail);
    }
  }

  lemma TextsOfFirst(values: seq<CellValue>, record: seq<string>)
    requires values != []
    ensures record + CellTexts(values) == (record + [CellText(values[0])]) + CellTexts(values[1..])
  {
    assert CellTexts(values) == [CellText(values[0])] + CellTexts(values[1..]);
    Associate(record, [CellText(values[0])], CellTexts(values[1..]));
  }

  lemma {:induction false} LineReadsBack(values: seq<CellValue>, tail: string, r: Reader)
    requires values != [] && r.mode == FieldStart && r.field == ""
    ensures Parse(CsvLine(values) + tail, r) ==
            Parse(tail, Reader(FieldStart, "", [], r.records + [r.record + CellTexts(values)]))
  {
    var seen := r.(mode := QuoteSeen, field := CellText(values[0]));
    LineShape(values, tail);
    TextsOfFirst(values, r.record);
    if |values| == 1 {
      CellReadsBack(values[0], "\r\n" + tail, r);
      BreakEndsRecord(tail, seen);
      assert (r.record + [CellText(values[0])]) + CellTexts(values[1..]) == r.record + [CellText(values[0])];
    } else {
      var rest := CsvLine(values[1..]) + tail;
      CellReadsBack(values[0], "," + rest, r);
      CommaEndsField(rest, seen);
      LineReadsBack(values[1..], tail, EndField(seen));
    }
  }

  function Texts(grid: seq<seq<CellValue>>): seq<seq<string>> {
    seq(|grid|, i requires 0 <= i < |grid| => CellTexts(grid[i]))
  }

  lemma TextsOneMore(grid: seq<seq<CellValue>>, cells: seq<CellValue>)
    ensures Texts(grid + [cells]) == Texts(grid) + [CellTexts(cells)]
  {
  }

  lemma {:induction false} LinesReadBack(grid: seq<seq<CellValue>>, tail: string)
    requires forall i :: 0 <= i < |grid| ==> grid[i] != []
    ensures Parse(Lines(grid) + tail, START) == Parse(tail, START.(records := Texts(grid)))
  {
    if grid == [] {
      assert Lines(grid) + tail == tail && Texts(grid) == START.records;
    } else {
      var n := |grid| - 1;
      var before, cells := grid[..n], grid[n];
      assert grid == before + [cells];
      Associate(Lines(before), CsvLine(cells), tail);
      LinesReadBack(before, CsvLine(cells) + tail);
      LineReadsBack(cells, tail, START.(records := Texts(before)));
      assert [] + CellTexts(cells) == CellTexts(cells);
      TextsOneMore(before, cells);
    }
  }

  /** Also where no cell escapes it again, as in a workbook, free text never starts a formula. */
  lemma FreeTextIsSafe(column: Column, row: ExportRow)
    requires column in {DisplayName, ContactName, Phone, GuestNames}
    ensures var value := Value(column, row);
            && value.TextCell? && Content(column, row).TextCell?
            && (value.text == "" || value.text[0] !in {'=', '+', '-', '@', '\t', '\r'})
            && value.text == SafeText(Content(column, row).text)
  {
  }

  /** Although free text is made safe twice, a cell carries the safe form of its content, once. */
  lemma CellCarriesItsContent(column: Column, row: ExportRow)
    ensures CellText(Value(column, row)) == CellText(Content(column, row))
  {
    SafeTextOnce(row.displayName);
    SafeTextOnce(row.contactName);
    SafeTextOnce(OrEmpty(row.phoneE164));
    SafeTextOnce(JoinNames(row.guestNames));
  }

  lemma HeaderIsSafe(column: Column)
    ensures CellText(TextCell(Header(column))) == Header(column)
  {
  }

  function HeaderTexts(columns: seq<Column>): seq<string> {
    seq(|columns|, i requires 0 <= i < |columns| => Header(columns[i]))
  }

  /** What a reader of the file should find in a row: the safe form of every text, the digits of every number. */
  function RowTexts(columns: seq<Column>, row: ExportRow): seq<string> {
    seq(|columns|, i requires 0 <= i < |columns| => CellText(Content(columns[i], row)))
  }

  function FileTexts(columns: seq<Column>, rows: seq<ExportRow>): seq<seq<string>> {
    [HeaderTexts(columns)] + seq(|rows|, i requires 0 <= i < |rows| => RowTexts(columns, rows[i]))
  }

  lemma GridCarriesTheTexts(columns: seq<Column>, rows: seq<ExportRow>)
    ensures Texts(GridOf(columns, rows)) == FileTexts(columns, rows)
  {
    forall i | 0 <= i < |columns| { HeaderIsSafe(columns[i]); }
    assert CellTexts(HeaderCells(columns)) == HeaderTexts(columns);
    forall i | 0 <= i < |rows| ensures CellTexts(RowCells(columns, rows[i])) == RowTexts(columns, rows[i]) {
      forall k | 0 <= k < |columns| { CellCarriesItsContent(columns[k], rows[i]); }
    }
  }

  /**
   * Parsing an exported file gives back its header and, row by row and cell by cell, the safe form of every
   * text and the digits of every number, whatever quotes, commas and line breaks the texts contain.
   */
  lemma FileReadsBack(columns: seq<Column>, rows: seq<ExportRow>)
    requires columns != []
    ensures ParseFile(Document(columns, rows)) == Some(FileTexts(columns, rows))
  {
    var grid := GridOf(columns, rows);
    assert Document(columns, rows)[1..] == Lines(grid);
    assert Lines(grid) + "" == Lines(grid);
    LinesReadBack(grid, "");
    GridCarriesTheTexts(columns, rows);
  }

  // ----- The file, spelled out -----

  /** The first record of a file without phone numbers: the phone column is absent, not empty. */
  lemma HeaderRecord()
    ensures HeaderTexts(Columns(false)) ==
            ["معرّف الدعوة", "اسم المجموعة", "اسم جهة الاتصال", "نوع الدعوة", "عدد المرافقين", "أسماء الضيوف",
             "حالة الرد", "الحضور المتوقع", "تم تسجيل دخولهم", "المتبقي", "آخر حالة توصيل"]
  {
  }

  /** With phone numbers, their column comes fourth. */
  lemma HeaderRecordWithPhone()
    ensures HeaderTexts(Columns(true)) ==
            HeaderTexts(Columns(false))[..3] + ["رقم الهاتف"] + HeaderTexts(Columns(false))[3..]
  {
  }

  /** The texts in the record of a row without its phone number. */
  lemma TextsOfARecord(row: ExportRow)
    ensures var record := RowTexts(Columns(false), row);
            && |record| == 11
            && record[0] == SafeText(row.invitationId)
            && record[1] == SafeText(row.displayName)
            && record[2] == SafeText(row.contactName)
            && record[3] == SafeText(row.invitationType)
            && record[5] == SafeText(JoinNames(row.guestNames))
            && record[6] == SafeText(row.rsvpStatus)
            && record[10] == SafeText(if row.latestDeliveryStatus.Some? then row.latestDeliveryStatus.value else "")
  {
    ColumnsWithoutPhone();
    TextField(row, 0, InvitationId, row.invitationId);
    TextField(row, 1, DisplayName, row.displayName);
    TextField(row, 2, ContactName, row.contactName);
    TextField(row, 3, InvitationType, row.invitationType);
    TextField(row, 5, GuestNames, JoinNames(row.guestNames));
    TextField(row, 6, RsvpStatus, row.rsvpStatus);
    TextField(row, 10, LatestDeliveryStatus,
              if row.latestDeliveryStatus.Some? then row.latestDeliveryStatus.value else "");
  }

  /** The numbers in it: companions allowed, guests expected, arrived, and still missing, which is never negative. */
  lemma NumbersOfARecord(row: ExportRow)
    ensures var record := RowTexts(Columns(false), row);
            && |record| == 11
            && record[4] == NumberText(row.maxCompanions)
            && record[7] == NumberText(row.expectedAttendees)
            && record[8] == NumberText(row.checkedInCount)
            && record[9] == NumberText(if row.expectedAttendees <= row.checkedInCount then 0
                                       else row.expectedAttendees - row.checkedInCount)
  {
    ColumnsWithoutPhone();
    NumberField(row, 4, MaxCompanions, row.maxCompanions);
    NumberField(row, 7, ExpectedAttendees, row.expectedAttendees);
    NumberField(row, 8, CheckedIn, row.checkedInCount);
    NumberField(row, 9, RemainingGuests,
                if row.expectedAttendees <= row.checkedInCount then 0 else row.expectedAttendees - row.checkedInCount);
  }

  lemma ColumnsWithoutPhone()
    ensures var columns := Columns(false);
            && |columns| == 11
            && columns[0] == InvitationId && columns[1] == DisplayName && columns[2] == ContactName
            && columns[3] == InvitationType && columns[4] == MaxCompanions && columns[5] == GuestNames
            && columns[6] == RsvpStatus && columns[7] == ExpectedAttendees && columns[8] == CheckedIn
            && columns[9] == RemainingGuests && columns[10] == LatestDeliveryStatus
  {
  }

  lemma NumberField(row: ExportRow, k: nat, column: Column, n: int)
    requires k < |Columns(false)| && Columns(false)[k] == column && Content(column, row) == NumberCell(n)
    ensures |RowTexts(Columns(false), row)| == |Columns(false)| && RowTexts(Columns(false), row)[k] == NumberText(n)
  {
  }

  lemma TextField(row: ExportRow, k: nat, column: Column, text: string)
    requires k < |Columns(false)| && Columns(false)[k] == column && Content(column, row) == TextCell(text)
    ensures |RowTexts(Columns(false), row)| == |Columns(false)| && RowTexts(Columns(false), row)[k] == SafeText(text)
  {
  }

  lemma RowRecordWithPhone(row: ExportRow)
    ensures RowTexts(Columns(true), row) ==
            RowTexts(Columns(false), row)[..3] +
            [SafeText(if row.phoneE164.Some? then row.phoneE164.value else "")] + RowTexts(Columns(false), row)[3..]
  {
  }

  /** Guest names are joined by the Arabic semicolon and a space, and by nothing else. */
  lemma NamesAreJoined(names: seq<string>)
    ensures names == [] ==> JoinNames(names) == ""
    ensures |names| == 1 ==> JoinNames(names) == names[0]
    ensures |names| > 1 ==> JoinNames(names) == names[0] + "\U{061B} " + JoinNames(names[1..])
  {
    assert "\U{061B} " == "؛ ";
  }
}
