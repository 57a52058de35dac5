/** `ExcelExtractor`: lays a workbook out as text (a "Sheet:" heading, the
    headers, one line per row that has a non-blank cell, a separator) and
    aggregates its size. The workbook reader is an input: either the sheets it
    read or the message of the exception it raised. */
module ExcelExtractor {
  import opened Wrappers
  import opened Strings
  import Seqs

  /** A cell as pandas reads it: missing (NaN) or a value as `str` shows it. */
  datatype Cell = Missing | Value(shown: string)

  /** One sheet: its name, its column headers as `str` shows them, its rows
      (a data frame has one cell per header in every row). */
  datatype Sheet = Sheet(name: string, headers: seq<string>, rows: seq<seq<Cell>>)

  /** What the reader returns: the sheets in workbook order, or an error message. */
  type Workbook = Result<seq<Sheet>, string>

  /** `str(value)` after `fillna("")`. */
  function CellText(c: Cell): string {
    match c
    case Missing => ""
    case Value(s) => s
  }

  /** A cell the row generator skips: its text is all white space. */
  predicate IsBlankCell(c: Cell) {
    AllIn(CellText(c), IsPySpace)
  }

  /** A cell is blank exactly when the test `str(value).strip()` fails. */
  lemma BlankCellIff(c: Cell)
    ensures IsBlankCell(c) <==> PyStrip(CellText(c)) == ""
  {
    TrimEmptyIff(CellText(c), IsPySpace);
  }

  predicate HasContent(row: seq<Cell>) {
    exists i :: 0 <= i < |row| && !IsBlankCell(row[i])
  }

  /** The header of column `i`; a data frame has one for every cell, so the
      fallback is never used for a sheet the reader returns. */
  function Header(headers: seq<string>, i: nat): string {
    if i < |headers| then headers[i] else ""
  }

  /** The `"header: value"` parts of a row, in column order, for its non-blank cells. */
  function RowParts(headers: seq<string>, row: seq<Cell>): seq<string>
    decreases |row|
  {
    if row == [] then []
    else
      var n := |row| - 1;
      RowParts(headers, row[..n])
        + (if IsBlankCell(row[n]) then [] else [Header(headers, n) + ": " + CellText(row[n])])
  }

  /** `row_text`. */
  function RowText(headers: seq<string>, row: seq<Cell>): string
  {
    Join(" | ", RowParts(headers, row))
  }

  /** A row has no parts exactly when all of its cells are blank. */
  lemma {:induction false} RowPartsEmptyIff(headers: seq<string>, row: seq<Cell>)
    ensures RowParts(headers, row) == [] <==> !HasContent(row)
    decreases |row|
  {
    if row != [] {
      var n := |row| - 1;
      var init := row[..n];
      RowPartsEmptyIff(headers, init);
      assert RowParts(headers, row) == [] <==> RowParts(headers, init) == [] && IsBlankCell(row[n]);
      assert HasContent(row) <==> HasContent(init) || !IsBlankCell(row[n]) by {
        if HasContent(row) {
          var i :| 0 <= i < |row| && !IsBlankCell(row[i]);
          if i < n {
            assert init[i] == row[i];
          }
        }
        if HasContent(init) {
          var i :| 0 <= i < |init| && !IsBlankCell(init[i]);
          assert row[i] == init[i];
        }
      }
    }
  }

  /** Cell `i` of `row` is non-blank and renders as part `p`. */
  predicate IsPartAt(headers: seq<string>, row: seq<Cell>, i: int, p: string) {
    0 <= i < |row| && !IsBlankCell(row[i]) && p == Header(headers, i) + ": " + CellText(row[i])
  }

  /** Part `p` of a row is `header: value` of a non-blank cell, and every
      non-blank cell gives one. */
  lemma {:induction false} RowPartsMembers(headers: seq<string>, row: seq<Cell>, p: string)
    ensures p in RowParts(headers, row) <==> exists i :: IsPartAt(headers, row, i, p)
    decreases |row|
  {
    if row != [] {
      var n := |row| - 1;
      var init := row[..n];
      var tail := if IsBlankCell(row[n]) then [] else [Header(headers, n) + ": " + CellText(row[n])];
      assert p in RowParts(headers, row) <==> p in RowParts(headers, init) || p in tail by {
        assert RowParts(headers, row) == RowParts(headers, init) + tail;
      }
      assert p in tail <==> IsPartAt(headers, row, n, p);
      RowPartsMembers(headers, init, p);
      PartAtPrefix(headers, row, init, p);
    }
  }

  /** A part at some position of a non-empty row sits either in the row
      without its last cell or at that last cell. */
  lemma PartAtPrefix(headers: seq<string>, row: seq<Cell>, init: seq<Cell>, p: string)
    requires row != [] && init == row[..|row| - 1]
    ensures (exists i :: IsPartAt(headers, row, i, p)) <==>
      (exists i :: IsPartAt(headers, init, i, p)) || IsPartAt(headers, row, |row| - 1, p)
  {
    var n := |row| - 1;
    if i :| IsPartAt(headers, row, i, p) {
      if i < n {
        assert IsPartAt(headers, init, i, p);
      }
    }
    if i :| IsPartAt(headers, init, i, p) {
      assert IsPartAt(headers, row, i, p);
    }
  }

  /** The row text is empty exactly when every cell is blank; otherwise it holds
      the first non-blank cell's `header: value` part. */
  lemma RowTextEmptyIff(headers: seq<string>, row: seq<Cell>)
    ensures RowText(headers, row) == "" <==> !HasContent(row)
  {
    RowPartsEmptyIff(headers, row);
    var parts := RowParts(headers, row);
    if parts != [] {
      RowPartsMembers(headers, row, parts[0]);
      JoinNonEmpty(" | ", parts, 0);
    }
  }

  /** The line a row contributes: its text, when that is not empty. */
  function RowLine(headers: seq<string>, row: seq<Cell>): seq<string> {
    var text := RowText(headers, row);
    if text != "" then [text] else []
  }

  /** The lines for the rows of a sheet: the non-empty row texts, in row order. */
  function RowLines(headers: seq<string>, rows: seq<seq<Cell>>): seq<string>
    decreases |rows|
  {
    if rows == [] then [] else RowLines(headers, rows[..|rows| - 1]) + RowLine(headers, rows[|rows| - 1])
  }

  lemma RowLinesStep(headers: seq<string>, rows: seq<seq<Cell>>, j: nat)
    requires j < |rows|
    ensures RowLines(headers, rows[..j + 1]) == RowLines(headers, rows[..j]) + RowLine(headers, rows[j])
  {
    assert rows[..j + 1][..j] == rows[..j];
  }

  /** There is one line per row that has a non-blank cell. */
  lemma {:induction false} RowLinesCount(headers: seq<string>, rows: seq<seq<Cell>>)
    ensures |RowLines(headers, rows)| == |Seqs.Filter(rows, HasContent)|
    decreases |rows|
  {
    if rows != [] {
      var n := |rows| - 1;
      var one := if HasContent(rows[n]) then 1 else 0;
      RowLinesCount(headers, rows[..n]);
      assert |RowLines(headers, rows)| == |RowLines(headers, rows[..n])| + one by {
        RowLineSize(headers, rows[n]);
      }
      Seqs.FilterLast(rows, HasContent);
    }
  }

  lemma RowLineSize(headers: seq<string>, row: seq<Cell>)
    ensures |RowLine(headers, row)| == if HasContent(row) then 1 else 0
  {
    RowTextEmptyIff(headers, row);
  }

  /** The entries one sheet adds to `text_content`. */
  function SheetEntries(sheet: Sheet): seq<string>
  {
    ["Sheet: " + sheet.name, "Headers: " + Join(", ", sheet.headers)]
      + RowLines(sheet.headers, sheet.rows) + ["\n"]
  }

  /** `text_content` after the loop over the sheets. */
  function Entries(sheets: seq<Sheet>): seq<string> {
    Seqs.FlatMap(sheets, SheetEntries)
  }

  /** The sheets are laid out one after the other, in workbook order. */
  lemma EntriesAppend(a: seq<Sheet>, b: seq<Sheet>)
    ensures Entries(a + b) == Entries(a) + Entries(b)
  {
    Seqs.FlatMapAppend(a, b, SheetEntries);
  }

  const TextErrorPrefix := "Error extracting text from Excel: "
  const MetadataErrorPrefix := "Error extracting metadata from Excel: "

  /** The result of `extract_text`: the joined entries, or the reader's error
      re-raised with its prefix. */
  function ExtractTextOf(book: Workbook): Result<string, string>
  {
    match book
    case Failure(e) => Failure(TextErrorPrefix + e)
    case Success(sheets) => Success(Join("\n", Entries(sheets)))
  }

  /** The row loop of `extract_text`: appends the line of every row that has
      one. */
  method AppendRowLines(before: seq<string>, headers: seq<string>, rows: seq<seq<Cell>>)
    returns (textContent: seq<string>)
    ensures textContent == before + RowLines(headers, rows)
  {
    textContent := before;
    var j := 0;
    while j < |rows|
      invariant 0 <= j <= |rows|
      invariant textContent == before + RowLines(headers, rows[..j])
    {
      var rowText := RowText(headers, rows[j]);
      ghost var prev := textContent;
      if rowText != "" {
        textContent := textContent + [rowText];
      }
      assert textContent == prev + RowLine(headers, rows[j]);
      assert textContent == before + RowLines(headers, rows[..j + 1]) by {
        RowLinesStep(headers, rows, j);
      }
      j := j + 1;
    }
    assert rows[..j] == rows;
  }

  /** `extract_text`, appending to `text_content` sheet by sheet. */
  method ExtractText(book: Workbook) returns (r: Result<string, string>)
    ensures r == ExtractTextOf(book)
  {
    if book.Failure? {
      return Failure(TextErrorPrefix + book.error);
    }
    var sheets := book.value;
    var textContent: seq<string> := [];
    var i := 0;
    while i < |sheets|
      invariant 0 <= i <= |sheets|
      invariant textContent == Entries(sheets[..i])
    {
      var sheet := sheets[i];
      ghost var before := textContent;
      textContent := textContent + ["Sheet: " + sheet.name];
      var headers := sheet.headers;
      textContent := textContent + ["Headers: " + Join(", ", headers)];
      textContent := AppendRowLines(textContent, headers, sheet.rows);
      textContent := textContent + ["\n"];
      EntriesStep(sheets, i, before);
      i := i + 1;
    }
    assert sheets[..i] == sheets;
    r := Success(Join("\n", textContent));
  }

  /** One more sheet, its entries appended one at a time. */
  lemma EntriesStep(sheets: seq<Sheet>, i: nat, before: seq<string>)
    requires i < |sheets|
    requires before == Entries(sheets[..i])
    ensures var sheet := sheets[i];
      Entries(sheets[..i + 1])
      == before + ["Sheet: " + sheet.name] + ["Headers: " + Join(", ", sheet.headers)]
         + RowLines(sheet.headers, sheet.rows) + ["\n"]
  {
    Seqs.FlatMapSnoc(sheets, i, SheetEntries);
  }

  /** The entries a sheet contributes are among the workbook's entries. */
  lemma SheetEntriesListed(sheets: seq<Sheet>, k: nat, x: string)
    requires k < |sheets| && x in SheetEntries(sheets[k])
    ensures x in Entries(sheets)
  {
    Seqs.FlatMapMember(sheets, k, SheetEntries, x);
  }

  /** Every row with a non-blank cell has its line among the entries. */
  lemma RowLineListed(sheets: seq<Sheet>, k: nat, j: nat)
    requires k < |sheets| && j < |sheets[k].rows| && HasContent(sheets[k].rows[j])
    ensures RowText(sheets[k].headers, sheets[k].rows[j]) in Entries(sheets)
  {
    var sheet := sheets[k];
    RowTextEmptyIff(sheet.headers, sheet.rows[j]);
    RowLineInSheet(sheet.headers, sheet.rows, j);
    SheetEntriesListed(sheets, k, RowText(sheet.headers, sheet.rows[j]));
  }

  lemma {:induction false} RowLineInSheet(headers: seq<string>, rows: seq<seq<Cell>>, j: nat)
    requires j < |rows| && RowText(headers, rows[j]) != ""
    ensures RowText(headers, rows[j]) in RowLines(headers, rows)
    decreases |rows|
  {
    var n := |rows| - 1;
    var text := RowText(headers, rows[j]);
    var init := RowLines(headers, rows[..n]);
    assert RowLines(headers, rows) == init + RowLine(headers, rows[n]);
    if j < n {
      assert rows[..n][j] == rows[j];
      RowLineInSheet(headers, rows[..n], j);
      assert text in init;
    } else {
      assert RowLine(headers, rows[n]) == [text];
    }
  }

  /** What `get_metadata` returns. */
  datatype Metadata = Metadata(sheetCount: nat, totalRows: nat, totalColumns: nat, sheetNames: seq<string>)

  function RowCounts(sheets: seq<Sheet>): (r: seq<nat>)
    ensures |r| == |sheets| && forall i :: 0 <= i < |sheets| ==> r[i] == |sheets[i].rows|
  {
    seq(|sheets|, i requires 0 <= i < |sheets| => |sheets[i].rows|)
  }

  function ColumnCounts(sheets: seq<Sheet>): (r: seq<nat>)
    ensures |r| == |sheets| && forall i :: 0 <= i < |sheets| ==> r[i] == |sheets[i].headers|
  {
    seq(|sheets|, i requires 0 <= i < |sheets| => |sheets[i].headers|)
  }

  function Names(sheets: seq<Sheet>): (r: seq<string>)
    ensures |r| == |sheets| && forall i :: 0 <= i < |sheets| ==> r[i] == sheets[i].name
  {
    seq(|sheets|, i requires 0 <= i < |sheets| => sheets[i].name)
  }

  /** `get_metadata`. */
  function MetadataOf(book: Workbook): Result<Metadata, string> {
    match book
    case Failure(e) => Failure(MetadataErrorPrefix + e)
    case Success(sheets) =>
      Success(Metadata(|sheets|, Seqs.Sum(RowCounts(sheets)), Seqs.Sum(ColumnCounts(sheets)), Names(sheets)))
  }

  /** The totals add up over a workbook split in two, and the sheet count is
      the number of names. */
  lemma MetadataAppend(a: seq<Sheet>, b: seq<Sheet>)
    ensures var m := MetadataOf(Success(a + b)).value;
      && m.sheetCount == |m.sheetNames|
      && m.sheetNames == Names(a) + Names(b)
      && m.totalRows == MetadataOf(Success(a)).value.totalRows + MetadataOf(Success(b)).value.totalRows
      && m.totalColumns == MetadataOf(Success(a)).value.totalColumns + MetadataOf(Success(b)).value.totalColumns
  {
    assert RowCounts(a + b) == RowCounts(a) + RowCounts(b);
    assert ColumnCounts(a + b) == ColumnCounts(a) + ColumnCounts(b);
    Seqs.SumAppend(RowCounts(a), RowCounts(b));
    Seqs.SumAppend(ColumnCounts(a), ColumnCounts(b));
  }

  /** One sheet counts its rows and its columns. */
  lemma MetadataOne(s: Sheet)
    ensures MetadataOf(Success([s])) == Success(Metadata(1, |s.rows|, |s.headers|, [s.name]))
  {
    var rows: seq<nat> := [|s.rows|];
    var columns: seq<nat> := [|s.headers|];
    assert RowCounts([s]) == rows && rows[..0] == [];
    assert ColumnCounts([s]) == columns && columns[..0] == [];
    assert Names([s]) == [s.name];
    assert Seqs.Sum(rows) == |s.rows|;
    assert Seqs.Sum(columns) == |s.headers|;
    var book: Workbook := Success([s]);
    assert MetadataOf(book).value.totalRows == |s.rows|;
    assert MetadataOf(book).value.sheetNames == [s.name];
  }
}
