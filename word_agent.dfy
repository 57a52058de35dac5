/** The Word agent. `process_word_document` turns a document opened by python-docx into its
    core properties, records of its non-empty paragraphs and of its tables,
    and the text handed to the chunker; `scan_word` validates a request and
    renders a display summary of that data. Opening the file, reading its
    size and splitting the text are inputs of the model. */
module WordAgent {
  import opened Wrappers
  import opened Strings
  import Dicts

  const NotAvailable := "Not available"
  const NoTextMessage := "No text content found in document"
  const MetadataErrorPrefix := "Failed to extract metadata: "
  const ProcessErrorPrefix := "Error processing Word document: "
  const NoPathMessage := "No file path provided"
  const NotFoundMessage := "File not found"
  const NotWordMessage := "File is not a Word document"

  // ---------------------------------------------------------------------
  // The document, as python-docx presents it
  // ---------------------------------------------------------------------

  /** A paragraph's raw text and the name of its style, if it has one. */
  datatype Paragraph = Paragraph(text: string, style: Option<string>)

  /** A table: the raw text of each cell of each row, and `len(table.columns)`. */
  datatype Table = Table(rows: seq<seq<string>>, columns: nat)

  /** Core properties; an empty string stands for an unset (or empty) text
      property, and the two dates are `str()` of the timestamp when set. */
  datatype CoreProperties = CoreProperties(
    title: string, author: string, subject: string, keywords: string,
    category: string, comments: string, created: Option<string>,
    modified: Option<string>, lastModifiedBy: string)

  /** Reading the core properties: absent, read, or failing with a message. */
  datatype PropertiesRead =
    | NoProperties
    | Properties(props: CoreProperties)
    | PropertiesFailed(reason: string)

  /** `sizeKb` is the file size in kilobytes as `:.2f` renders it. */
  datatype Document = Document(
    paragraphs: seq<Paragraph>, tables: seq<Table>, sections: nat,
    properties: PropertiesRead, sizeKb: string)

  // ---------------------------------------------------------------------
  // The document data
  // ---------------------------------------------------------------------

  datatype ParagraphRecord = ParagraphRecord(index: nat, text: string, style: string)

  datatype TableRecord = TableRecord(index: nat, rows: seq<seq<string>>, rowCount: nat, columnCount: nat)

  datatype DocumentInfo = DocumentInfo(
    paragraphCount: nat, tableCount: nat, sectionCount: nat,
    fileSizeKb: string, fileName: string)

  /** Either `{"error": ...}` or the full structure with its chunks. */
  datatype DocumentData =
    | Failed(error: string)
    | Processed(
        metadata: Dicts.Dict<string, string>, info: DocumentInfo,
        paragraphs: seq<ParagraphRecord>, tables: seq<TableRecord>,
        chunks: seq<string>)

  // ---------------------------------------------------------------------
  // Core properties
  // ---------------------------------------------------------------------

  const PropertyKeys: seq<string> := ["title", "author", "subject", "keywords",
    "category", "comments", "created", "modified", "last_modified_by"]

  /** `value or "Not available"`. */
  function OrNotAvailable(v: string): string {
    if v == "" then NotAvailable else v
  }

  /** `str(value) if value else "Not available"` for a timestamp. */
  function DateOrNotAvailable(v: Option<string>): string {
    match v
    case None => NotAvailable
    case Some(s) => if s == "" then NotAvailable else s
  }

  /** The `metadata` entry: empty without core properties, the nine
      properties with their defaults, or a single "error" entry. */
  function MetadataOf(p: PropertiesRead): (m: Dicts.Dict<string, string>)
    ensures m == [] <==> p.NoProperties?
    ensures forall i :: 0 <= i < |m| ==> m[i].1 != ""
    ensures p.Properties? ==> Dicts.Keys(m) == PropertyKeys
    ensures p.PropertiesFailed? ==> m == [("error", MetadataErrorPrefix + p.reason)]
  {
    match p
    case NoProperties => []
    case PropertiesFailed(reason) => [("error", MetadataErrorPrefix + reason)]
    case Properties(c) =>
      var m := [("title", OrNotAvailable(c.title)), ("author", OrNotAvailable(c.author)),
        ("subject", OrNotAvailable(c.subject)), ("keywords", OrNotAvailable(c.keywords)),
        ("category", OrNotAvailable(c.category)), ("comments", OrNotAvailable(c.comments)),
        ("created", DateOrNotAvailable(c.created)), ("modified", DateOrNotAvailable(c.modified)),
        ("last_modified_by", OrNotAvailable(c.lastModifiedBy))];
      assert Dicts.Keys(m) == PropertyKeys;
      m
  }

  /** The raw value of the `i`-th core property in `PropertyKeys` order; a
      text property is always present, possibly empty, a timestamp may be
      missing. */
  function RawProperty(c: CoreProperties, i: nat): Option<string>
    requires i < |PropertyKeys|
  {
    if i == 0 then Some(c.title)
    else if i == 1 then Some(c.author)
    else if i == 2 then Some(c.subject)
    else if i == 3 then Some(c.keywords)
    else if i == 4 then Some(c.category)
    else if i == 5 then Some(c.comments)
    else if i == 6 then c.created
    else if i == 7 then c.modified
    else Some(c.lastModifiedBy)
  }

  /** `shown` is "Not available" exactly when `raw` is missing, empty or
      itself "Not available", and is `raw` whenever that is set. */
  predicate ShowsOrDefaults(shown: string, raw: Option<string>) {
    && (shown == NotAvailable <==> raw.None? || raw.value == "" || raw.value == NotAvailable)
    && (raw.Some? && raw.value != "" ==> shown == raw.value)
  }

  /** Every one of the nine properties appears under its own key and shows
      its own value when it is set, and "Not available" when it is not. */
  lemma MetadataDefaults(c: CoreProperties)
    ensures var m := MetadataOf(Properties(c));
      && |m| == |PropertyKeys|
      && forall i :: 0 <= i < |PropertyKeys| ==>
           m[i].0 == PropertyKeys[i] && ShowsOrDefaults(m[i].1, RawProperty(c, i))
  {
    var m := MetadataOf(Properties(c));
    forall i | 0 <= i < |PropertyKeys|
      ensures ShowsOrDefaults(m[i].1, RawProperty(c, i))
    {
      if i == 6 || i == 7 {
        DateShows(RawProperty(c, i));
      } else {
        TextShows(RawProperty(c, i).value);
      }
    }
  }

  lemma TextShows(v: string)
    ensures ShowsOrDefaults(OrNotAvailable(v), Some(v))
  {
  }

  lemma DateShows(v: Option<string>)
    ensures ShowsOrDefaults(DateOrNotAvailable(v), v)
  {
  }

  // ---------------------------------------------------------------------
  // Paragraphs
  // ---------------------------------------------------------------------

  /** The records the paragraph loop appends: one per paragraph whose stripped
      text is non-empty, carrying its position among all paragraphs. */
  function ParagraphRecords(paras: seq<Paragraph>): seq<ParagraphRecord>
    decreases |paras|
  {
    if paras == [] then []
    else
      var n := |paras| - 1;
      var text := PyStrip(paras[n].text);
      ParagraphRecords(paras[..n])
        + (if text != "" then [ParagraphRecord(n, text, paras[n].style.GetOr("Normal"))] else [])
  }

  /** The text the paragraph loop adds to `all_text`: every kept paragraph
      followed by a blank line. */
  function ParagraphsText(paras: seq<Paragraph>): string
    decreases |paras|
  {
    if paras == [] then ""
    else
      var n := |paras| - 1;
      var text := PyStrip(paras[n].text);
      ParagraphsText(paras[..n]) + (if text != "" then text + "\n\n" else "")
  }

  /** Kept paragraphs each followed by a blank line. */
  function RecordsText(recs: seq<ParagraphRecord>): string
    decreases |recs|
  {
    if recs == [] then "" else RecordsText(recs[..|recs| - 1]) + (recs[|recs| - 1].text + "\n\n")
  }

  method ExtractParagraphs(paras: seq<Paragraph>) returns (records: seq<ParagraphRecord>, allText: string)
    ensures records == ParagraphRecords(paras)
    ensures allText == ParagraphsText(paras)
  {
    records := [];
    allText := "";
    for i := 0 to |paras|
      invariant records == ParagraphRecords(paras[..i])
      invariant allText == ParagraphsText(paras[..i])
    {
      assert paras[..i + 1][..i] == paras[..i];
      var text := PyStrip(paras[i].text);
      if text != "" {
        records := records + [ParagraphRecord(i, text, paras[i].style.GetOr("Normal"))];
        allText := allText + (text + "\n\n");
      }
    }
    assert paras[..|paras|] == paras;
  }

  /** `rec` is the record of a non-empty stripped paragraph of `paras`, at
      that paragraph's index and with its style or "Normal". */
  predicate RecordFits(paras: seq<Paragraph>, rec: ParagraphRecord) {
    && rec.index < |paras|
    && rec.text == PyStrip(paras[rec.index].text) && rec.text != ""
    && rec.style == paras[rec.index].style.GetOr("Normal")
  }

  /** Every record belongs to its paragraph. */
  lemma {:induction false} ParagraphRecordsSound(paras: seq<Paragraph>)
    ensures forall j :: 0 <= j < |ParagraphRecords(paras)| ==> RecordFits(paras, ParagraphRecords(paras)[j])
    decreases |paras|
  {
    if paras != [] {
      var n := |paras| - 1;
      var init := paras[..n];
      var r := ParagraphRecords(paras);
      var ri := ParagraphRecords(init);
      ParagraphRecordsSound(init);
      forall j | 0 <= j < |r|
        ensures RecordFits(paras, r[j])
      {
        if j < |ri| {
          assert r[j] == ri[j];
          assert RecordFits(init, ri[j]);
          assert init[ri[j].index] == paras[ri[j].index];
        }
      }
    }
  }

  /** There are at most as many records as paragraphs, below `|paras|` and
      with strictly increasing indices. */
  lemma {:induction false} ParagraphRecordsIncrease(paras: seq<Paragraph>)
    ensures var r := ParagraphRecords(paras);
      && |r| <= |paras|
      && (forall j :: 0 <= j < |r| ==> r[j].index < |paras|)
      && (forall j, k :: 0 <= j < k < |r| ==> r[j].index < r[k].index)
    decreases |paras|
  {
    if paras != [] {
      var n := |paras| - 1;
      var ri := ParagraphRecords(paras[..n]);
      ParagraphRecordsIncrease(paras[..n]);
      var text := PyStrip(paras[n].text);
      if text != "" {
        var rec := ParagraphRecord(n, text, paras[n].style.GetOr("Normal"));
        assert ParagraphRecords(paras) == ri + [rec];
      } else {
        assert ParagraphRecords(paras) == ri;
      }
    }
  }

  /** Every paragraph with non-blank text has a record; `j` is its position
      among the records. */
  lemma {:induction false} ParagraphRecordsComplete(paras: seq<Paragraph>, i: nat) returns (j: nat)
    requires i < |paras| && PyStrip(paras[i].text) != ""
    ensures j < |ParagraphRecords(paras)| && ParagraphRecords(paras)[j].index == i
    decreases |paras|
  {
    var n := |paras| - 1;
    var ri := ParagraphRecords(paras[..n]);
    var text := PyStrip(paras[n].text);
    if i == n {
      assert ParagraphRecords(paras) == ri + [ParagraphRecord(n, text, paras[n].style.GetOr("Normal"))];
      j := |ri|;
    } else {
      assert paras[..n][i] == paras[i];
      j := ParagraphRecordsComplete(paras[..n], i);
      assert ParagraphRecords(paras)[..|ri|] == ri;
    }
  }

  /** The paragraph part of the text is the kept paragraphs, each followed by
      a blank line. */
  lemma {:induction false} ParagraphTextIsRecords(paras: seq<Paragraph>)
    ensures ParagraphsText(paras) == RecordsText(ParagraphRecords(paras))
    decreases |paras|
  {
    if paras != [] {
      var n := |paras| - 1;
      ParagraphTextIsRecords(paras[..n]);
      var init := ParagraphRecords(paras[..n]);
      var text := PyStrip(paras[n].text);
      if text != "" {
        var rec := ParagraphRecord(n, text, paras[n].style.GetOr("Normal"));
        assert (init + [rec])[..|init|] == init;
      } else {
        assert init + [] == init;
      }
    }
  }

  // ---------------------------------------------------------------------
  // Tables
  // ---------------------------------------------------------------------

  function StripCells(cells: seq<string>): seq<string> {
    seq(|cells|, j requires 0 <= j < |cells| => PyStrip(cells[j]))
  }

  /** Every cell of every row stripped. */
  function StripRows(rows: seq<seq<string>>): seq<seq<string>> {
    seq(|rows|, r requires 0 <= r < |rows| => StripCells(rows[r]))
  }

  /** The table's record: its position, its stripped cells, its row count,
      and `len(table.columns) if table.rows else 0`. */
  function TableRecordOf(i: nat, t: Table): TableRecord {
    TableRecord(i, StripRows(t.rows), |t.rows|, if t.rows != [] then t.columns else 0)
  }

  function TableRecords(tables: seq<Table>): seq<TableRecord> {
    seq(|tables|, i requires 0 <= i < |tables| => TableRecordOf(i, tables[i]))
  }

  /** The text one row adds: each stripped cell followed by a space. */
  function CellsText(cells: seq<string>): string
    decreases |cells|
  {
    if cells == [] then "" else CellsText(cells[..|cells| - 1]) + (PyStrip(cells[|cells| - 1]) + " ")
  }

  /** The text a table adds: each row's cells, then "\n" per row. */
  function RowsText(rows: seq<seq<string>>): string
    decreases |rows|
  {
    if rows == [] then "" else RowsText(rows[..|rows| - 1]) + (CellsText(rows[|rows| - 1]) + "\n")
  }

  /** The text the table loop adds: each table's rows, then "\n" per table. */
  function TablesText(tables: seq<Table>): string
    decreases |tables|
  {
    if tables == [] then "" else TablesText(tables[..|tables| - 1]) + (RowsText(tables[|tables| - 1].rows) + "\n")
  }

  lemma CellsTextStep(cells: seq<string>, j: nat)
    requires j < |cells|
    ensures CellsText(cells[..j + 1]) == CellsText(cells[..j]) + (PyStrip(cells[j]) + " ")
  {
    assert cells[..j + 1][..j] == cells[..j];
  }

  lemma StripCellsAt(cells: seq<string>, stripped: seq<string>)
    requires |stripped| == |cells|
    requires forall k :: 0 <= k < |cells| ==> stripped[k] == PyStrip(cells[k])
    ensures stripped == StripCells(cells)
  {
  }

  lemma StripRowsAt(rows: seq<seq<string>>, stripped: seq<seq<string>>)
    requires |stripped| == |rows|
    requires forall k :: 0 <= k < |rows| ==> stripped[k] == StripCells(rows[k])
    ensures stripped == StripRows(rows)
  {
  }

  /** One row: `row_data` and the text appended to `before`. */
  method ExtractRow(cells: seq<string>, before: string) returns (rowData: seq<string>, allText: string)
    ensures rowData == StripCells(cells)
    ensures allText == before + CellsText(cells)
  {
    rowData := [];
    allText := before;
    for j := 0 to |cells|
      invariant |rowData| == j
      invariant forall k :: 0 <= k < j ==> rowData[k] == PyStrip(cells[k])
      invariant allText == before + CellsText(cells[..j])
    {
      rowData, allText := ExtractCell(cells, j, rowData, allText, before);
    }
    assert cells[..|cells|] == cells;
    StripCellsAt(cells, rowData);
  }

  /** One pass of the cell loop: strips cell `j` and appends it and a space. */
  method ExtractCell(cells: seq<string>, j: nat, data0: seq<string>, text0: string, before: string)
    returns (rowData: seq<string>, allText: string)
    requires j < |cells| && |data0| == j
    requires forall k :: 0 <= k < j ==> data0[k] == PyStrip(cells[k])
    requires text0 == before + CellsText(cells[..j])
    ensures |rowData| == j + 1
    ensures forall k :: 0 <= k < j + 1 ==> rowData[k] == PyStrip(cells[k])
    ensures allText == before + CellsText(cells[..j + 1])
  {
    var cellText := PyStrip(cells[j]);
    rowData := data0 + [cellText];
    allText := text0 + (cellText + " ");
    assert allText == before + CellsText(cells[..j + 1]) by {
      CellsTextStep(cells, j);
      Seqs.AppendAssoc(before, CellsText(cells[..j]), cellText + " ");
    }
  }

  lemma RowsTextStep(rows: seq<seq<string>>, r: nat)
    requires r < |rows|
    ensures RowsText(rows[..r + 1]) == RowsText(rows[..r]) + (CellsText(rows[r]) + "\n")
  {
    assert rows[..r + 1][..r] == rows[..r];
  }

  /** One pass of the row loop: strips row `r` and appends its text. */
  method ExtractTableRow(trows: seq<seq<string>>, r: nat, rows0: seq<seq<string>>, text0: string, before: string)
    returns (rows: seq<seq<string>>, allText: string)
    requires r < |trows| && |rows0| == r
    requires text0 == before + RowsText(trows[..r])
    ensures rows == rows0 + [StripCells(trows[r])]
    ensures allText == before + RowsText(trows[..r + 1])
  {
    var rowData, rowText := ExtractRow(trows[r], text0);
    rows := rows0 + [rowData];
    allText := rowText + "\n";
    assert allText == before + RowsText(trows[..r + 1]) by {
      RowsTextStep(trows, r);
      Seqs.AppendAssoc(before, RowsText(trows[..r]), CellsText(trows[r]));
      Seqs.AppendAssoc(before + RowsText(trows[..r]), CellsText(trows[r]), "\n");
      Seqs.AppendAssoc(before, RowsText(trows[..r]), CellsText(trows[r]) + "\n");
    }
  }

  /** One table: its record and the text appended to `before`. */
  method ExtractTable(i: nat, t: Table, before: string) returns (record: TableRecord, allText: string)
    ensures record == TableRecordOf(i, t)
    ensures allText == before + (RowsText(t.rows) + "\n")
  {
    var rows: seq<seq<string>> := [];
    allText := before;
    for r := 0 to |t.rows|
      invariant |rows| == r
      invariant forall k :: 0 <= k < r ==> rows[k] == StripCells(t.rows[k])
      invariant allText == before + RowsText(t.rows[..r])
    {
      ghost var rows0 := rows;
      rows, allText := ExtractTableRow(t.rows, r, rows, allText, before);
      assert forall k :: 0 <= k < r + 1 ==> rows[k] == StripCells(t.rows[k]) by {
        forall k | 0 <= k < r + 1 ensures rows[k] == StripCells(t.rows[k]) {
          if k < r {
            assert rows[k] == rows0[k];
          }
        }
      }
    }
    assert t.rows[..|t.rows|] == t.rows;
    StripRowsAt(t.rows, rows);
    record := TableRecord(i, rows, |t.rows|, if t.rows != [] then t.columns else 0);
    allText := allText + "\n";
  }

  lemma TablesTextStep(tables: seq<Table>, i: nat)
    requires i < |tables|
    ensures TablesText(tables[..i + 1]) == TablesText(tables[..i]) + (RowsText(tables[i].rows) + "\n")
  {
    assert tables[..i + 1][..i] == tables[..i];
  }

  method ExtractTables(tables: seq<Table>, before: string) returns (records: seq<TableRecord>, allText: string)
    ensures records == TableRecords(tables)
    ensures allText == before + TablesText(tables)
  {
    records := [];
    allText := before;
    for i := 0 to |tables|
      invariant |records| == i
      invariant forall k :: 0 <= k < i ==> records[k] == TableRecordOf(k, tables[k])
      invariant allText == before + TablesText(tables[..i])
    {
      records, allText := ExtractNextTable(tables, i, records, allText, before);
    }
    assert tables[..|tables|] == tables;
    TableRecordsAt(tables, records);
  }

  /** One pass of the table loop: the record of table `i` and its text. */
  method ExtractNextTable(tables: seq<Table>, i: nat, records0: seq<TableRecord>, text0: string, before: string)
    returns (records: seq<TableRecord>, allText: string)
    requires i < |tables| && |records0| == i
    requires forall k :: 0 <= k < i ==> records0[k] == TableRecordOf(k, tables[k])
    requires text0 == before + TablesText(tables[..i])
    ensures |records| == i + 1
    ensures forall k :: 0 <= k < i + 1 ==> records[k] == TableRecordOf(k, tables[k])
    ensures allText == before + TablesText(tables[..i + 1])
  {
    TablesTextStep(tables, i);
    var record;
    record, allText := ExtractTable(i, tables[i], text0);
    Seqs.AppendAssoc(before, TablesText(tables[..i]), RowsText(tables[i].rows) + "\n");
    records := records0 + [record];
  }

  lemma TableRecordsAt(tables: seq<Table>, records: seq<TableRecord>)
    requires |records| == |tables|
    requires forall k :: 0 <= k < |tables| ==> records[k] == TableRecordOf(k, tables[k])
    ensures records == TableRecords(tables)
  {
  }

  /** Each table record keeps its position and its row count; its column
      count is the table's when it has rows and 0 otherwise. */
  lemma TableRecordsShape(tables: seq<Table>)
    ensures var r := TableRecords(tables);
      && |r| == |tables|
      && forall i :: 0 <= i < |r| ==>
           && r[i].index == i && r[i].rowCount == |tables[i].rows| == |r[i].rows|
           && r[i].columnCount == (if tables[i].rows == [] then 0 else tables[i].columns)
           && forall k :: 0 <= k < |tables[i].rows| ==> |r[i].rows[k]| == |tables[i].rows[k]|
  {
  }

  // ---------------------------------------------------------------------
  // The whole text and its chunks
  // ---------------------------------------------------------------------

  /** `all_text`: the paragraph part, then the table part. */
  function AllText(doc: Document): string {
    ParagraphsText(doc.paragraphs) + TablesText(doc.tables)
  }

  /** The chunker runs only on text that is not blank. */
  function ChunksOf(text: string, split: string -> seq<string>): seq<string> {
    if PyStrip(text) != "" then split(text) else [NoTextMessage]
  }

  function DocumentDataOf(path: string, read: Result<Document, string>, split: string -> seq<string>): DocumentData {
    match read
    case Failure(e) => Failed(ProcessErrorPrefix + e)
    case Success(doc) =>
      Processed(MetadataOf(doc.properties),
        DocumentInfo(|doc.paragraphs|, |doc.tables|, doc.sections, doc.sizeKb, Basename(path)),
        ParagraphRecords(doc.paragraphs), TableRecords(doc.tables),
        ChunksOf(AllText(doc), split))
  }

  /** `process_word_document(path)`, where `read` is what opening the file
      gives and `split` is the text splitter. */
  method ProcessWordDocument(path: string, read: Result<Document, string>, split: string -> seq<string>)
    returns (data: DocumentData)
    ensures data == DocumentDataOf(path, read, split)
  {
    if read.Failure? {
      return Failed(ProcessErrorPrefix + read.error);
    }
    var doc := read.value;
    var info := DocumentInfo(|doc.paragraphs|, |doc.tables|, doc.sections, doc.sizeKb, Basename(path));
    var metadata := MetadataOf(doc.properties);
    var paragraphs, allText := ExtractParagraphs(doc.paragraphs);
    var tables;
    tables, allText := ExtractTables(doc.tables, allText);
    var chunks := if PyStrip(allText) != "" then split(allText) else [NoTextMessage];
    data := Processed(metadata, info, paragraphs, tables, chunks);
  }

  /** `paragraph_count` counts every paragraph, so it bounds the records. */
  lemma ParagraphCountBound(path: string, doc: Document, split: string -> seq<string>)
    ensures var d := DocumentDataOf(path, Success(doc), split);
      d.info.paragraphCount == |doc.paragraphs| >= |d.paragraphs|
  {
    ParagraphRecordsIncrease(doc.paragraphs);
  }

  /** Every cell of the row strips to "". */
  predicate BlankCells(cells: seq<string>) {
    forall c :: 0 <= c < |cells| ==> PyStrip(cells[c]) == ""
  }

  predicate BlankRows(rows: seq<seq<string>>) {
    forall r :: 0 <= r < |rows| ==> BlankCells(rows[r])
  }

  predicate BlankTables(tables: seq<Table>) {
    forall t :: 0 <= t < |tables| ==> BlankRows(tables[t].rows)
  }

  predicate BlankParagraphs(paras: seq<Paragraph>) {
    forall i :: 0 <= i < |paras| ==> PyStrip(paras[i].text) == ""
  }

  /** A document is blank when every paragraph and every cell strips to "". */
  predicate BlankDocument(doc: Document) {
    BlankParagraphs(doc.paragraphs) && BlankTables(doc.tables)
  }

  /** A stripped piece followed by whitespace is blank only when the piece is
      empty. */
  lemma PieceBlank(x: string, tail: string)
    requires AllIn(tail, IsPySpace)
    ensures AllIn(PyStrip(x) + tail, IsPySpace) <==> PyStrip(x) == ""
  {
    if PyStrip(x) != "" {
      TrimIsSlice(x, IsPySpace);
      assert (PyStrip(x) + tail)[0] == PyStrip(x)[0];
    }
  }

  lemma {:induction false} CellsBlank(cells: seq<string>)
    ensures AllIn(CellsText(cells), IsPySpace) <==> BlankCells(cells)
    decreases |cells|
  {
    if cells != [] {
      var n := |cells| - 1;
      CellsBlank(cells[..n]);
      PieceBlank(cells[n], " ");
      BlankCellsSnoc(cells);
      AllInAppend(CellsText(cells[..n]), PyStrip(cells[n]) + " ", IsPySpace);
    }
  }

  lemma BlankCellsSnoc(cells: seq<string>)
    requires cells != []
    ensures var n := |cells| - 1;
      BlankCells(cells) <==> BlankCells(cells[..n]) && PyStrip(cells[n]) == ""
  {
    var n := |cells| - 1;
    assert forall c :: 0 <= c < n ==> cells[..n][c] == cells[c];
  }

  /** A line feed is white space, so it does not change blankness. */
  lemma NewlineAfter(s: string)
    ensures AllIn(s + "\n", IsPySpace) <==> AllIn(s, IsPySpace)
  {
    AllInAppend(s, "\n", IsPySpace);
  }

  lemma {:induction false} RowsBlank(rows: seq<seq<string>>)
    ensures AllIn(RowsText(rows), IsPySpace) <==> BlankRows(rows)
    decreases |rows|
  {
    if rows != [] {
      var n := |rows| - 1;
      RowsBlank(rows[..n]);
      CellsBlank(rows[n]);
      NewlineAfter(CellsText(rows[n]));
      BlankRowsSnoc(rows);
      AllInAppend(RowsText(rows[..n]), CellsText(rows[n]) + "\n", IsPySpace);
    }
  }

  lemma BlankRowsSnoc(rows: seq<seq<string>>)
    requires rows != []
    ensures var n := |rows| - 1;
      BlankRows(rows) <==> BlankRows(rows[..n]) && BlankCells(rows[n])
  {
    var n := |rows| - 1;
    assert forall r :: 0 <= r < n ==> rows[..n][r] == rows[r];
  }

  lemma {:induction false} TablesBlank(tables: seq<Table>)
    ensures AllIn(TablesText(tables), IsPySpace) <==> BlankTables(tables)
    decreases |tables|
  {
    if tables != [] {
      var n := |tables| - 1;
      TablesBlank(tables[..n]);
      RowsBlank(tables[n].rows);
      NewlineAfter(RowsText(tables[n].rows));
      BlankTablesSnoc(tables);
      AllInAppend(TablesText(tables[..n]), RowsText(tables[n].rows) + "\n", IsPySpace);
    }
  }

  lemma BlankTablesSnoc(tables: seq<Table>)
    requires tables != []
    ensures var n := |tables| - 1;
      BlankTables(tables) <==> BlankTables(tables[..n]) && BlankRows(tables[n].rows)
  {
    var n := |tables| - 1;
    assert forall t :: 0 <= t < n ==> tables[..n][t] == tables[t];
  }

  lemma {:induction false} ParagraphsBlank(paras: seq<Paragraph>)
    ensures AllIn(ParagraphsText(paras), IsPySpace) <==> BlankParagraphs(paras)
    decreases |paras|
  {
    if paras != [] {
      var n := |paras| - 1;
      var init := paras[..n];
      var piece := ParagraphPiece(paras[n]);
      ParagraphsBlank(init);
      ParagraphsStep(paras);
      AllInAppend(ParagraphsText(init), piece, IsPySpace);
    }
  }

  /** What one paragraph adds to the text. */
  function ParagraphPiece(p: Paragraph): string {
    var text := PyStrip(p.text);
    if text != "" then text + "\n\n" else ""
  }

  lemma ParagraphsStep(paras: seq<Paragraph>)
    requires paras != []
    ensures var n := |paras| - 1;
      && ParagraphsText(paras) == ParagraphsText(paras[..n]) + ParagraphPiece(paras[n])
      && (AllIn(ParagraphPiece(paras[n]), IsPySpace) <==> PyStrip(paras[n].text) == "")
      && (BlankParagraphs(paras) <==> BlankParagraphs(paras[..n]) && PyStrip(paras[n].text) == "")
  {
    var n := |paras| - 1;
    ParagraphPieceBlank(paras[n]);
    BlankParagraphsSnoc(paras);
  }

  lemma ParagraphPieceBlank(p: Paragraph)
    ensures AllIn(ParagraphPiece(p), IsPySpace) <==> PyStrip(p.text) == ""
  {
    if PyStrip(p.text) != "" {
      PieceBlank(p.text, "\n\n");
    }
  }

  lemma BlankParagraphsSnoc(paras: seq<Paragraph>)
    requires paras != []
    ensures var n := |paras| - 1;
      BlankParagraphs(paras) <==> BlankParagraphs(paras[..n]) && PyStrip(paras[n].text) == ""
  {
    var n := |paras| - 1;
    assert forall i :: 0 <= i < n ==> paras[..n][i] == paras[i];
  }

  /** The whole text is blank exactly when the document is. */
  lemma AllTextBlankIff(doc: Document)
    ensures PyStrip(AllText(doc)) == "" <==> BlankDocument(doc)
  {
    ParagraphsBlank(doc.paragraphs);
    TablesBlank(doc.tables);
    AllInAppend(ParagraphsText(doc.paragraphs), TablesText(doc.tables), IsPySpace);
    TrimEmptyIff(AllText(doc), IsPySpace);
  }

  /** A blank document yields exactly the placeholder chunk; any other is
      handed whole to the splitter. */
  lemma ChunksFallback(path: string, doc: Document, split: string -> seq<string>)
    ensures var d := DocumentDataOf(path, Success(doc), split);
      d.chunks == if BlankDocument(doc) then [NoTextMessage] else split(AllText(doc))
  {
    AllTextBlankIff(doc);
  }

  /** The text begins with the kept paragraphs, each followed by a blank line. */
  lemma AllTextStartsWithParagraphs(doc: Document)
    ensures StartsWith(AllText(doc), RecordsText(ParagraphRecords(doc.paragraphs)))
  {
    ParagraphTextIsRecords(doc.paragraphs);
  }

  // ---------------------------------------------------------------------
  // scan_word
  // ---------------------------------------------------------------------

  /** `os.path.join(folder, p)` on POSIX. */
  function JoinPath(folder: string, p: string): (r: string)
    ensures StartsWith(p, "/") ==> r == p
    ensures EndsWith(r, p)
  {
    if StartsWith(p, "/") then p
    else if folder == [] || EndsWith(folder, "/") then folder + p
    else folder + "/" + p
  }

  /** `p.lower().endswith(('.docx', '.doc'))`. */
  predicate IsWordName(p: string) {
    var l := AsciiLower(p);
    EndsWith(l, ".docx") || EndsWith(l, ".doc")
  }

  /** Case does not matter and the stem does not either: any name ending in
      ".DOC" or ".DOCX" is accepted, and any name ending in ".docm" (a
      macro-enabled document) is not. */
  lemma WordNameByEnding(stem: string)
    ensures IsWordName(stem + ".DOC") && IsWordName(stem + ".DOCX")
    ensures !IsWordName(stem + ".docm")
  {
    assert EndsWith(AsciiLower(stem + ".DOC"), ".doc") by {
      LowerOfEnding(stem, ".DOC");
      var t := AsciiLower(".DOC");
      assert t[0] == '.' && t[1] == 'd' && t[2] == 'o' && t[3] == 'c';
    }
    assert EndsWith(AsciiLower(stem + ".DOCX"), ".docx") by {
      LowerOfEnding(stem, ".DOCX");
      var t := AsciiLower(".DOCX");
      assert t[0] == '.' && t[1] == 'd' && t[2] == 'o' && t[3] == 'c' && t[4] == 'x';
    }
    var l := AsciiLower(stem + ".docm");
    assert l[|l| - 1] == 'm';
  }

  /** Lower-casing a name lower-cases its ending in place. */
  lemma LowerOfEnding(stem: string, ending: string)
    ensures EndsWith(AsciiLower(stem + ending), AsciiLower(ending))
  {
    var l := AsciiLower(stem + ending);
    assert forall i :: 0 <= i < |ending| ==> l[|stem| + i] == AsciiLowerChar(ending[i]);
    assert l[|stem|..] == AsciiLower(ending);
  }

  lemma WordNameExamples()
    ensures IsWordName("report.DOCX") && IsWordName("Notes.Doc")
    ensures !IsWordName("notes.txt") && !IsWordName("macro.docm") && !IsWordName("doc")
  {
    assert AsciiLower("report.DOCX")[6..] == ".docx";
    assert AsciiLower("Notes.Doc")[5..] == ".doc";
    assert AsciiLower("notes.txt")[5..] == ".txt";
    assert AsciiLower("notes.txt")[4..] == "s.txt";
    assert AsciiLower("macro.docm")[6..] == "docm";
    assert AsciiLower("macro.docm")[5..] == ".docm";
  }

  /** A metadata value is listed when it is truthy and not the default. */
  predicate Shown(v: string) {
    v != "" && v != NotAvailable
  }

  /** `f"- {key.replace('_', ' ').title()}: {value}\n"`, `title` being
      `str.title`. */
  function PropertyLine(title: string -> string, k: string, v: string): string {
    "- " + title(ReplaceChar(k, '_', " ")) + ": " + v + "\n"
  }

  /** The lines listed for the shown entries, in order. */
  function PropertyLines(meta: Dicts.Dict<string, string>, title: string -> string): seq<string>
    decreases |meta|
  {
    if meta == [] then []
    else
      var e := meta[|meta| - 1];
      PropertyLines(meta[..|meta| - 1], title) + (if Shown(e.1) then [PropertyLine(title, e.0, e.1)] else [])
  }

  /** `s` after the metadata loop's `summary += line` steps. */
  function AddProperties(s: string, meta: Dicts.Dict<string, string>, title: string -> string): string
    decreases |meta|
  {
    if meta == [] then s
    else
      var e := meta[|meta| - 1];
      var r := AddProperties(s, meta[..|meta| - 1], title);
      if Shown(e.1) then r + PropertyLine(title, e.0, e.1) else r
  }

  /** The header lines with the paragraph count and the size. */
  function SummaryHeader(base: string, info: DocumentInfo): string {
    "Word Document: " + base + "\n"
      + ("Paragraphs: " + NatToString(info.paragraphCount) + "\n")
      + ("Size: " + info.fileSizeKb + " KB\n\n")
  }

  function ChunksLine(chunks: seq<string>): string {
    "Text extracted and split into " + NatToString(|chunks|) + " chunks for processing.\n"
  }

  /** The display summary before line breaks become `<br>`. */
  function DisplaySummary(base: string, data: DocumentData, title: string -> string): string {
    match data
    case Failed(e) => e
    case Processed(meta, info, _, _, chunks) =>
      var s := SummaryHeader(base, info);
      var withProps := if meta != [] then AddProperties(s + "Document Properties:\n", meta, title) + "\n" else s;
      withProps + ChunksLine(chunks)
  }

  datatype ScanResponse =
    | Scanned(filename: string, summary: string, data: DocumentData)
    | Rejected(status: nat, error: string)

  /** `scan_word` on the request's `file_path`; `fileExists` and `openFile` act on the
      joined path. */
  function ScanWordOf(filePath: Option<string>, folder: string, fileExists: string -> bool,
                      openFile: string -> Result<Document, string>, split: string -> seq<string>,
                      title: string -> string): ScanResponse
  {
    if filePath.None? || filePath.value == "" then Rejected(400, NoPathMessage)
    else
      var p := filePath.value;
      var full := JoinPath(folder, p);
      if !fileExists(full) then Rejected(404, NotFoundMessage)
      else if !IsWordName(p) then Rejected(400, NotWordMessage)
      else
        ScannedOf(p, DocumentDataOf(full, openFile(full), split), title)
  }

  /** The response for a processed request: the shown summary has every line
      break turned into `<br>`, so it holds no line feed. */
  function ScannedOf(p: string, data: DocumentData, title: string -> string): (r: ScanResponse)
    ensures r.Scanned? && r.data == data && r.filename == Basename(p)
    ensures r.summary == ReplaceChar(DisplaySummary(Basename(p), data, title), '\n', LineBreakTag)
    ensures '\n' !in r.summary
  {
    var shown := DisplaySummary(Basename(p), data, title);
    BreaksReplaced(shown);
    Scanned(Basename(p), ReplaceChar(shown, '\n', LineBreakTag), data)
  }

  const LineBreakTag := "<br>"

  lemma BreaksReplaced(s: string)
    ensures '\n' !in ReplaceChar(s, '\n', LineBreakTag)
  {
    assert forall i :: 0 <= i < |LineBreakTag| ==> LineBreakTag[i] != '\n';
  }

  method AppendProperties(before: string, meta: Dicts.Dict<string, string>, title: string -> string)
    returns (summary: string)
    ensures summary == AddProperties(before, meta, title)
  {
    summary := before;
    for i := 0 to |meta|
      invariant summary == AddProperties(before, meta[..i], title)
    {
      assert meta[..i + 1][..i] == meta[..i];
      var (key, value) := meta[i];
      if value != "" && value != NotAvailable {
        summary := summary + PropertyLine(title, key, value);
      }
    }
    assert meta[..|meta|] == meta;
  }

  method ScanWord(filePath: Option<string>, folder: string, fileExists: string -> bool,
                  openFile: string -> Result<Document, string>, split: string -> seq<string>,
                  title: string -> string)
    returns (r: ScanResponse)
    ensures r == ScanWordOf(filePath, folder, fileExists, openFile, split, title)
  {
    if filePath.None? || filePath.value == "" {
      return Rejected(400, NoPathMessage);
    }
    var p := filePath.value;
    var full := JoinPath(folder, p);
    if !fileExists(full) {
      return Rejected(404, NotFoundMessage);
    }
    if !IsWordName(p) {
      return Rejected(400, NotWordMessage);
    }
    var data := ProcessWordDocument(full, openFile(full), split);
    var summary;
    if data.Failed? {
      summary := data.error;
    } else {
      summary := "Word Document: " + Basename(p) + "\n";
      summary := summary + ("Paragraphs: " + NatToString(data.info.paragraphCount) + "\n");
      summary := summary + ("Size: " + data.info.fileSizeKb + " KB\n\n");
      if data.metadata != [] {
        summary := AppendProperties(summary + "Document Properties:\n", data.metadata, title);
        summary := summary + "\n";
      }
      summary := summary + ChunksLine(data.chunks);
    }
    r := Scanned(Basename(p), ReplaceChar(summary, '\n', LineBreakTag), data);
  }

  /** The request is checked in order: a path is given, the file exists, the
      name is a Word name; only then is the document processed. */
  lemma ScanOrder(filePath: Option<string>, folder: string, fileExists: string -> bool,
                  openFile: string -> Result<Document, string>, split: string -> seq<string>,
                  title: string -> string)
    ensures var r := ScanWordOf(filePath, folder, fileExists, openFile, split, title);
      var given := filePath.Some? && filePath.value != "";
      var found := given && fileExists(JoinPath(folder, filePath.value));
      && (r == Rejected(400, NoPathMessage) <==> !given)
      && (r == Rejected(404, NotFoundMessage) <==> given && !found)
      && (r == Rejected(400, NotWordMessage) <==> found && !IsWordName(filePath.value))
      && (r.Scanned? <==> found && IsWordName(filePath.value))
  {
  }

  /** The shown summary holds no line feed. */
  lemma ScannedOfImages(p: string, data: DocumentData, title: string -> string)
    ensures var shown := DisplaySummary(Basename(p), data, title);
      && ScannedOf(p, data, title).summary == Concat(CharImages(shown, '\n', LineBreakTag))
      && ('\n' !in shown ==> ScannedOf(p, data, title).summary == shown)
  {
    var shown := DisplaySummary(Basename(p), data, title);
    ReplaceCharIsImages(shown, '\n', LineBreakTag);
    if '\n' !in shown {
      ReplaceCharAbsent(shown, '\n', LineBreakTag);
    }
  }

  lemma ScannedSummaryHasNoNewline(filePath: Option<string>, folder: string, fileExists: string -> bool,
                                   openFile: string -> Result<Document, string>, split: string -> seq<string>,
                                   title: string -> string)
    ensures var r := ScanWordOf(filePath, folder, fileExists, openFile, split, title);
      r.Scanned? ==>
        var shown := DisplaySummary(Basename(filePath.value), r.data, title);
        && '\n' !in r.summary
        && r.filename == Basename(filePath.value)
        && r.summary == ReplaceChar(shown, '\n', LineBreakTag)
  {
    var r := ScanWordOf(filePath, folder, fileExists, openFile, split, title);
    if filePath.None? || filePath.value == "" {
      assert r.Rejected?;
    } else {
      var p := filePath.value;
      var full := JoinPath(folder, p);
      if !fileExists(full) || !IsWordName(p) {
        assert r.Rejected?;
      } else {
        var data := DocumentDataOf(full, openFile(full), split);
        assert r == ScannedOf(p, data, title);
      }
    }
  }

  /** The metadata loop appends exactly the lines of the shown entries. */
  lemma {:induction false} AddPropertiesIsLines(s: string, meta: Dicts.Dict<string, string>, title: string -> string)
    ensures AddProperties(s, meta, title) == s + Concat(PropertyLines(meta, title))
    decreases |meta|
  {
    if meta != [] {
      var n := |meta| - 1;
      AddPropertiesIsLines(s, meta[..n], title);
      var init := PropertyLines(meta[..n], title);
      PropertiesLast(s, meta, title);
      if Shown(meta[n].1) {
        var l := PropertyLine(title, meta[n].0, meta[n].1);
        ConcatSnoc(init, l);
        assert s + Concat(init) + l == s + (Concat(init) + l);
      } else {
        assert init + [] == init;
      }
    }
  }

  lemma PropertiesLast(s: string, meta: Dicts.Dict<string, string>, title: string -> string)
    requires meta != []
    ensures var n := |meta| - 1; var e := meta[n];
      && AddProperties(s, meta, title)
         == AddProperties(s, meta[..n], title) + (if Shown(e.1) then PropertyLine(title, e.0, e.1) else "")
      && PropertyLines(meta, title)
         == PropertyLines(meta[..n], title) + (if Shown(e.1) then [PropertyLine(title, e.0, e.1)] else [])
  {
  }

  /** A line is listed exactly when some entry with a shown value renders to it. */
  lemma {:induction false} PropertyLinesMembers(meta: Dicts.Dict<string, string>, title: string -> string, l: string)
    ensures l in PropertyLines(meta, title) <==> exists i :: IsLineAt(meta, title, i, l)
    decreases |meta|
  {
    if meta != [] {
      var n := |meta| - 1;
      var init := meta[..n];
      var e := meta[n];
      var tail := if Shown(e.1) then [PropertyLine(title, e.0, e.1)] else [];
      assert l in PropertyLines(meta, title) <==> l in PropertyLines(init, title) || l in tail by {
        assert PropertyLines(meta, title) == PropertyLines(init, title) + tail;
      }
      assert l in tail <==> IsLineAt(meta, title, n, l);
      PropertyLinesMembers(init, title, l);
      LineAtPrefix(meta, init, title, l);
    }
  }

  /** Entry `i` of `meta` is shown and renders as line `l`. */
  predicate IsLineAt(meta: Dicts.Dict<string, string>, title: string -> string, i: int, l: string) {
    0 <= i < |meta| && Shown(meta[i].1) && l == PropertyLine(title, meta[i].0, meta[i].1)
  }

  /** A line rendered at some entry of a non-empty dict is rendered either in
      the dict without its last entry or at that last entry. */
  lemma LineAtPrefix(meta: Dicts.Dict<string, string>, init: Dicts.Dict<string, string>, title: string -> string, l: string)
    requires meta != [] && init == meta[..|meta| - 1]
    ensures (exists i :: IsLineAt(meta, title, i, l)) <==>
      (exists i :: IsLineAt(init, title, i, l)) || IsLineAt(meta, title, |meta| - 1, l)
  {
    var n := |meta| - 1;
    if i :| IsLineAt(meta, title, i, l) {
      if i < n {
        assert IsLineAt(init, title, i, l);
      }
    }
    if i :| IsLineAt(init, title, i, l) {
      assert IsLineAt(meta, title, i, l);
    }
  }

  /** The summary of processed data: the header, then (when there is metadata)
      the properties block listing the shown entries, then the chunk count. */
  lemma DisplaySummaryShape(base: string, data: DocumentData, title: string -> string)
    requires data.Processed?
    ensures DisplaySummary(base, data, title)
      == SummaryHeader(base, data.info)
         + (if data.metadata != [] then "Document Properties:\n" + Concat(PropertyLines(data.metadata, title)) + "\n" else "")
         + ChunksLine(data.chunks)
  {
    var s := SummaryHeader(base, data.info);
    if data.metadata != [] {
      AddPropertiesIsLines(s + "Document Properties:\n", data.metadata, title);
    }
  }
}
