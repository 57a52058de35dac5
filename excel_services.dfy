/** `ExcelProcessorService`: summarises a workbook (or a CSV file) sheet by
    sheet and renders that summary as plain text without a language model.
    The pandas and openpyxl readers are inputs. */
module ExcelServices {
  import opened Wrappers
  import opened Strings
  import Seqs
  import Dicts

  /** A data frame as far as the summary uses it: its row count, its column
      names and the names of its numeric columns. */
  datatype Frame = Frame(rows: nat, columnNames: seq<string>, numericColumns: seq<string>)

  /** A per-sheet (or CSV) summary dict. `rows` and `columns` may be absent in a
      dict built elsewhere; `hasStatistics` is the truth value of its
      `statistics` entry, and an absent `numeric_columns` reads as empty. */
  datatype FrameSummary = FrameSummary(
    rows: Option<nat>,
    columns: Option<nat>,
    numericColumns: seq<string>,
    hasStatistics: bool)

  /** The summary dict `process_excel` builds: with `sheet_names` for a
      workbook, the frame summary itself for a CSV file. */
  datatype SummaryDict =
    | Workbook(sheetNames: seq<string>, activeSheet: string, sheetSummaries: Dicts.Dict<string, FrameSummary>)
    | Csv(frame: FrameSummary)

  /** `_generate_summary_from_dataframe`: `statistics` is present (and, being a
      dict with one entry per numeric column, true) exactly when there are
      numeric columns. */
  function SummaryFromFrame(df: Frame): FrameSummary {
    FrameSummary(Some(df.rows), Some(|df.columnNames|), df.numericColumns, |df.numericColumns| > 0)
  }

  /** `sum(summary['sheet_summaries'][sheet].get('rows', 0) for sheet in sheet_names)`,
      failing with the first sheet name that has no summary (a `KeyError`). */
  function TotalRows(names: seq<string>, sums: Dicts.Dict<string, FrameSummary>): Result<nat, string>
    decreases |names|
  {
    if names == [] then Success(0)
    else
      var name := names[|names| - 1];
      match TotalRows(names[..|names| - 1], sums)
      case Failure(k) => Failure(k)
      case Success(t) =>
        match Dicts.Get<string, FrameSummary>(sums, name)
        case None => Failure(name)
        case Some(fs) => Success(t + fs.rows.GetOr(0))
  }

  /** The rows of every named sheet that has a summary, an absent count read as 0. */
  function RowsOf(names: seq<string>, sums: Dicts.Dict<string, FrameSummary>): (r: seq<nat>)
    ensures |r| == |names|
  {
    seq(|names|, i requires 0 <= i < |names| =>
      match Dicts.Get<string, FrameSummary>(sums, names[i])
      case None => 0
      case Some(fs) => fs.rows.GetOr(0))
  }

  /** The total succeeds exactly when every named sheet has a summary, and is
      then the sum of their row counts; otherwise it names a missing sheet. */
  lemma {:induction false} TotalRowsSum(names: seq<string>, sums: Dicts.Dict<string, FrameSummary>)
    ensures TotalRows(names, sums).Success? <==>
      forall i :: 0 <= i < |names| ==> Dicts.HasKey<string, FrameSummary>(sums, names[i])
    ensures TotalRows(names, sums).Success? ==> TotalRows(names, sums).value == Seqs.Sum(RowsOf(names, sums))
    ensures TotalRows(names, sums).Failure? ==>
      TotalRows(names, sums).error in names && !Dicts.HasKey<string, FrameSummary>(sums, TotalRows(names, sums).error)
    decreases |names|
  {
    if names != [] {
      var init := names[..|names| - 1];
      TotalRowsSum(init, sums);
      assert forall i :: 0 <= i < |init| ==> init[i] == names[i];
      assert RowsOf(names, sums)[..|names| - 1] == RowsOf(init, sums);
    }
  }

  function Num(n: nat): string {
    NatToString(n)
  }

  /** The parts for one sheet, or the key whose lookup fails. */
  function SheetBlock(name: string, sums: Dicts.Dict<string, FrameSummary>): Result<seq<string>, string> {
    match Dicts.Get<string, FrameSummary>(sums, name)
    case None => Failure(name)
    case Some(fs) =>
      if fs.rows.None? then Failure("rows")
      else if fs.columns.None? then Failure("columns")
      else
        var line := "Sheet '" + name + "': " + Num(fs.rows.value) + " rows, " + Num(fs.columns.value) + " columns.";
        if fs.numericColumns != [] && fs.hasStatistics then
          Success([line, "Contains " + Num(|fs.numericColumns|) + " numeric column(s)."])
        else Success([line])
  }

  /** The parts the sheet loop appends, sheet by sheet in `sheet_names` order. */
  function SheetBlocks(names: seq<string>, sums: Dicts.Dict<string, FrameSummary>): Result<seq<string>, string>
    decreases |names|
  {
    if names == [] then Success([])
    else
      match SheetBlocks(names[..|names| - 1], sums)
      case Failure(k) => Failure(k)
      case Success(parts) =>
        match SheetBlock(names[|names| - 1], sums)
        case Failure(k) => Failure(k)
        case Success(block) => Success(parts + block)
  }

  predicate HasNumericStats(sums: Dicts.Dict<string, FrameSummary>, name: string) {
    var fs := Dicts.Get<string, FrameSummary>(sums, name);
    fs.Some? && fs.value.numericColumns != [] && fs.value.hasStatistics
  }

  /** One part per sheet plus one per sheet with numeric statistics. */
  lemma {:induction false} SheetBlocksCount(names: seq<string>, sums: Dicts.Dict<string, FrameSummary>)
    requires SheetBlocks(names, sums).Success?
    ensures |SheetBlocks(names, sums).value|
         == |names| + |Seqs.Filter(names, (n: string) => HasNumericStats(sums, n))|
    decreases |names|
  {
    if names != [] {
      var init := names[..|names| - 1];
      var last := names[|names| - 1];
      SheetBlocksLast(names, sums);
      SheetBlocksCount(init, sums);
      SheetBlockSize(last, sums);
      assert init + [last] == names;
      Seqs.FilterSnoc(init, last, (n: string) => HasNumericStats(sums, n));
    }
  }

  lemma SheetBlocksLast(names: seq<string>, sums: Dicts.Dict<string, FrameSummary>)
    requires names != [] && SheetBlocks(names, sums).Success?
    ensures var init := names[..|names| - 1]; var last := names[|names| - 1];
      && SheetBlocks(init, sums).Success? && SheetBlock(last, sums).Success?
      && SheetBlocks(names, sums).value == SheetBlocks(init, sums).value + SheetBlock(last, sums).value
  {
  }

  lemma SheetBlockSize(name: string, sums: Dicts.Dict<string, FrameSummary>)
    requires SheetBlock(name, sums).Success?
    ensures |SheetBlock(name, sums).value| == if HasNumericStats(sums, name) then 2 else 1
  {
  }

  const ExcelOpening := "Excel file contains "
  const CsvOpening := "CSV file with "

  function CsvText(fs: FrameSummary): string {
    CsvOpening + CsvCounts(fs)
  }

  function CsvCounts(fs: FrameSummary): string {
    Num(fs.rows.GetOr(0)) + " rows and " + Num(fs.columns.GetOr(0))
      + " columns. Contains " + Num(|fs.numericColumns|) + " numeric column(s)."
  }

  /** The opening parts of a workbook summary. */
  function Opening(names: seq<string>, total: nat): seq<string> {
    [ExcelOpening + SheetList(names), "Total of " + Num(total) + " rows across all sheets."]
  }

  /** The sheet count and the names joined by ", ", in order. */
  function SheetList(names: seq<string>): string {
    Num(|names|) + " sheet(s): " + Join(", ", names) + "."
  }

  /** `_generate_simple_text_summary`, or the key a lookup fails on. */
  function SimpleTextSummaryOf(summary: SummaryDict): Result<string, string> {
    match summary
    case Csv(fs) => Success(CsvText(fs))
    case Workbook(names, _, sums) =>
      match TotalRows(names, sums)
      case Failure(k) => Failure(k)
      case Success(total) =>
        match SheetBlocks(names, sums)
        case Failure(k) => Failure(k)
        case Success(parts) => Success(Join(" ", Opening(names, total) + parts))
  }

  /** The sheet loop of `_generate_simple_text_summary`. */
  method AppendSheetParts(names: seq<string>, sums: Dicts.Dict<string, FrameSummary>, before: seq<string>)
    returns (r: Result<seq<string>, string>)
    ensures r == match SheetBlocks(names, sums)
                 case Failure(k) => Failure(k)
                 case Success(parts) => Success(before + parts)
  {
    var textParts := before;
    var i := 0;
    assert names[..0] == [] && textParts[|before|..] == [];
    while i < |names|
      invariant 0 <= i <= |names|
      invariant |before| <= |textParts| && textParts[..|before|] == before
      invariant SheetBlocks(names[..i], sums) == Success(textParts[|before|..])
    {
      var name := names[i];
      assert names[..i + 1][..i] == names[..i] && names[..i + 1][i] == name;
      var sheetData := Dicts.Get<string, FrameSummary>(sums, name);
      if sheetData.None? {
        BlocksFailureSticks(names, i + 1, sums);
        return Failure(name);
      }
      var fs := sheetData.value;
      if fs.rows.None? {
        BlocksFailureSticks(names, i + 1, sums);
        return Failure("rows");
      }
      if fs.columns.None? {
        BlocksFailureSticks(names, i + 1, sums);
        return Failure("columns");
      }
      ghost var prefix := textParts;
      textParts := textParts
        + ["Sheet '" + name + "': " + Num(fs.rows.value) + " rows, " + Num(fs.columns.value) + " columns."];
      if fs.numericColumns != [] && fs.hasStatistics {
        textParts := textParts + ["Contains " + Num(|fs.numericColumns|) + " numeric column(s)."];
      }
      assert textParts[|before|..] == prefix[|before|..] + SheetBlock(name, sums).value;
      i := i + 1;
    }
    assert names[..i] == names;
    assert before + textParts[|before|..] == textParts;
    r := Success(textParts);
  }

  lemma {:induction false} BlocksFailureSticks(names: seq<string>, n: nat, sums: Dicts.Dict<string, FrameSummary>)
    requires n <= |names| && SheetBlocks(names[..n], sums).Failure?
    ensures SheetBlocks(names, sums) == SheetBlocks(names[..n], sums)
    decreases |names| - n
  {
    if n == |names| {
      assert names[..n] == names;
    } else {
      assert names[..n + 1][..n] == names[..n];
      BlocksFailureSticks(names, n + 1, sums);
    }
  }

  /** `_generate_simple_text_summary`. */
  method GenerateSimpleTextSummary(summary: SummaryDict) returns (r: Result<string, string>)
    ensures r == SimpleTextSummaryOf(summary)
  {
    if summary.Csv? {
      var fs := summary.frame;
      return Success(CsvText(fs));
    }
    var names := summary.sheetNames;
    var total := TotalRows(names, summary.sheetSummaries);
    if total.Failure? {
      return Failure(total.error);
    }
    var parts := AppendSheetParts(names, summary.sheetSummaries, Opening(names, total.value));
    if parts.Failure? {
      return Failure(parts.error);
    }
    r := Success(Join(" ", parts.value));
  }

  /** The workbook text starts with the sheet count and the names joined by
      ", " in order. */
  lemma WorkbookOpening(names: seq<string>, active: string, sums: Dicts.Dict<string, FrameSummary>)
    requires SimpleTextSummaryOf(Workbook(names, active, sums)).Success?
    ensures StartsWith(SimpleTextSummaryOf(Workbook(names, active, sums)).value, ExcelOpening + SheetList(names))
  {
    var parts := Opening(names, TotalRows(names, sums).value) + SheetBlocks(names, sums).value;
    JoinStartsWith(" ", parts);
  }

  /** The text tells the two branches apart: it starts "Excel file contains"
      exactly for a summary with `sheet_names`, and "CSV file with" otherwise. */
  lemma BranchIff(summary: SummaryDict)
    requires SimpleTextSummaryOf(summary).Success?
    ensures StartsWith(SimpleTextSummaryOf(summary).value, ExcelOpening) <==> summary.Workbook?
    ensures summary.Csv? ==> StartsWith(SimpleTextSummaryOf(summary).value, CsvOpening)
  {
    var text := SimpleTextSummaryOf(summary).value;
    if summary.Workbook? {
      var names := summary.sheetNames;
      WorkbookOpening(names, summary.activeSheet, summary.sheetSummaries);
      StartsWithPrefix(text, ExcelOpening, SheetList(names));
    } else {
      StartsWithPrefix(text, CsvOpening, CsvCounts(summary.frame));
      assert ExcelOpening[0] != CsvOpening[0];
    }
  }

  lemma StartsWithPrefix(s: string, a: string, b: string)
    requires StartsWith(s, a + b)
    ensures StartsWith(s, a)
  {
    assert s[..|a|] == (a + b)[..|a|];
  }

  /** `file_path.endswith('.csv')`. */
  predicate IsCsvPath(path: string) {
    EndsWith(path, ".csv")
  }

  /** `summary['sheet_summaries']` after the loop over the workbook's sheets. */
  function SheetSummaries(names: seq<string>, readSheet: string -> Frame): Dicts.Dict<string, FrameSummary>
    decreases |names|
  {
    if names == [] then []
    else
      var name := names[|names| - 1];
      Dicts.Put<string, FrameSummary>(SheetSummaries(names[..|names| - 1], readSheet), name, SummaryFromFrame(readSheet(name)))
  }

  /** Every sheet name maps to the summary of its own frame. */
  lemma {:induction false} SheetSummariesLookup(names: seq<string>, readSheet: string -> Frame, name: string)
    ensures Dicts.Get<string, FrameSummary>(SheetSummaries(names, readSheet), name)
         == if name in names then Some(SummaryFromFrame(readSheet(name))) else None
    decreases |names|
  {
    if names != [] {
      var init := names[..|names| - 1];
      SheetSummariesLookup(init, readSheet, name);
      Dicts.GetPut<string, FrameSummary>(SheetSummaries(init, readSheet), names[|names| - 1],
        SummaryFromFrame(readSheet(names[|names| - 1])), name);
      assert names == init + [names[|names| - 1]];
    }
  }

  /** The result of `process_excel`: a CSV path is read as one frame, any other
      path as a workbook with named sheets; then the text summary. */
  function ProcessExcelOf(path: string, readCsv: string -> Frame, sheetNames: seq<string>, active: string,
                          readSheet: string -> Frame): (SummaryDict, Result<string, string>)
  {
    var summary :=
      if IsCsvPath(path) then Csv(SummaryFromFrame(readCsv(path)))
      else Workbook(sheetNames, active, SheetSummaries(sheetNames, readSheet));
    (summary, SimpleTextSummaryOf(summary))
  }

  /** `process_excel`, the workbook reader given as the sheet names, the active
      sheet's title and a reader per sheet. */
  method ProcessExcel(path: string, readCsv: string -> Frame, sheetNames: seq<string>, active: string,
                      readSheet: string -> Frame)
    returns (summary: SummaryDict, text: Result<string, string>)
    ensures (summary, text) == ProcessExcelOf(path, readCsv, sheetNames, active, readSheet)
  {
    if IsCsvPath(path) {
      summary := Csv(SummaryFromFrame(readCsv(path)));
    } else {
      var sums: Dicts.Dict<string, FrameSummary> := [];
      var i := 0;
      while i < |sheetNames|
        invariant 0 <= i <= |sheetNames|
        invariant sums == SheetSummaries(sheetNames[..i], readSheet)
      {
        var name := sheetNames[i];
        assert sheetNames[..i + 1][..i] == sheetNames[..i];
        sums := Dicts.Put<string, FrameSummary>(sums, name, SummaryFromFrame(readSheet(name)));
        i := i + 1;
      }
      assert sheetNames[..i] == sheetNames;
      summary := Workbook(sheetNames, active, sums);
    }
    text := GenerateSimpleTextSummary(summary);
  }

  /** The text summary of what `process_excel` reads never fails; for a
      workbook it totals the rows of all its sheets, and any other path than a
      `.csv` one is read as a workbook. */
  lemma ProcessedSummaryText(path: string, readCsv: string -> Frame, sheetNames: seq<string>, active: string,
                             readSheet: string -> Frame)
    ensures var (summary, text) := ProcessExcelOf(path, readCsv, sheetNames, active, readSheet);
      && text.Success?
      && (summary.Csv? <==> IsCsvPath(path))
      && (summary.Workbook? ==>
            TotalRows(sheetNames, summary.sheetSummaries)
            == Success(Seqs.Sum(RowsOf(sheetNames, summary.sheetSummaries))))
  {
    if !IsCsvPath(path) {
      var sums := SheetSummaries(sheetNames, readSheet);
      forall i | 0 <= i < |sheetNames| ensures Dicts.HasKey<string, FrameSummary>(sums, sheetNames[i]) {
        SheetSummariesLookup(sheetNames, readSheet, sheetNames[i]);
      }
      TotalRowsSum(sheetNames, sums);
      BlocksSucceed(sheetNames, readSheet, sheetNames);
    }
  }

  lemma {:induction false} BlocksSucceed(names: seq<string>, readSheet: string -> Frame, all: seq<string>)
    requires forall i :: 0 <= i < |names| ==> names[i] in all
    ensures SheetBlocks(names, SheetSummaries(all, readSheet)).Success?
    decreases |names|
  {
    if names != [] {
      var init := names[..|names| - 1];
      assert forall i :: 0 <= i < |init| ==> init[i] == names[i];
      BlocksSucceed(init, readSheet, all);
      SheetSummariesLookup(all, readSheet, names[|names| - 1]);
    }
  }
}
