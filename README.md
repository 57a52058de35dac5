# Flaw document processor — verified model of its text pipeline

The flaw document processor is a Flask application with a small ASP.NET
companion. It accepts PDF, Word and spreadsheet files, turns each into text,
and summarises that text, either extractively or by asking a chat model. This
project models in Dafny the deterministic part of that pipeline and proves what
it promises. The model covers:

- **Extractive summarisers.** The C# `PdfSummarizer.SummarizeTextAsync` takes
  the first, middle and last long sentence. The Python `PdfSummarizer.summarize`
  scores sentences by word frequency and keeps the best ones in document order.
- **Corpus compaction.** The main agent's `summarize_combined_data` reduces
  every scanned document to its type, name, whitelisted metadata and a text
  sample, and counts documents by type.
- **Spreadsheets.** `ExcelExtractor.extract_text` and `get_metadata` cover the
  workbook layout. `ExcelProcessorService` contributes its text summary and its
  CSV/workbook branch.
- **Word documents.** `process_word_document` assembles paragraph and table
  records and the text handed to the chunker. `scan_word` covers request
  validation and the display summary.
- **PDF processing service.** It reads the pages, wraps the text in
  `<document>` tags inside three prompts, asks the model through `ask_llm` and
  lays out the three answers.
- **Validators.** `validate_input` and the two upload routes' `allowed_file`
  checks, plus the order in which each route rejects a request.

Several things are inputs of the model rather than parts of it:

- document readers (PyPDF2, python-docx, pandas/openpyxl);
- NLTK tokenizers and the stop-word list;
- the text splitter;
- `str.title`;
- the file-system tests;
- the chat model.

A chat model is a function from the request to its answer or to the message
of the exception it raised.

Wherever the source builds something step by step, the model is a method
proved against a function that states the result. This applies to:

- the `sentence_scores` loop;
- the `document_summary` loop;
- the row, sheet, paragraph, table and page loops;
- the metadata and sheet-part loops.

Lemmas then state the properties of those functions. Python dictionaries whose
order matters are insertion-ordered association lists (`Dicts.Dict`).

Shared modules:

- `Wrappers`: Option and Result.
- `Seqs`: order-preserving filter, sum, stable insertion sort.
- `Strings`: the Python and .NET whitespace classes, trimming, joining,
  splitting, ASCII lower-casing, searching, decimal rendering and
  `os.path.basename`.
- `Dicts`: the association lists.
- `Json`: the JSON-like values of the corpus.
- `Uploads`: what both upload routes share.

## Model

| member | source | states |
|---|---|---|
| SentenceSummarizer.SummarizeText | src/PdfSummary/Features/PdfProcessing/PdfSummarizer.cs:12-39 | the result is the "No text to summarize." message for a null or empty text, else the picked candidates each followed by "." and a line break |
| SentenceSummarizer.AppendSummaryLines | src/PdfSummary/Features/PdfProcessing/PdfSummarizer.cs:27-38 | the three conditional `AppendLine` calls render exactly the summary lines, in order |
| SentenceSummarizer.SentencesAreTrimmedPieces | src/PdfSummary/Features/PdfProcessing/PdfSummarizer.cs:21-24 | every candidate is longer than 20 UTF-16 code units (C# `Length`), contains no '.', '!' or '?', has no surrounding white space, and is the trim of a piece between terminators |
| SentenceSummarizer.LongPiecesAreSentences | src/PdfSummary/Features/PdfProcessing/PdfSummarizer.cs:21-24 | conversely, every piece whose trim is longer than 20 UTF-16 code units is a candidate |
| SentenceSummarizer.LongThreshold | src/PdfSummary/Features/PdfProcessing/PdfSummarizer.cs:23 | `Length > 20` means more than 20 characters for text in the Basic Multilingual Plane, and more than 10 characters for text made only of characters above U+FFFF |
| Strings.Utf16LengthBounds | src/PdfSummary/Features/PdfProcessing/PdfSummarizer.cs:23 | a string takes between one and two UTF-16 code units per character, exactly one when every character is in the Basic Multilingual Plane |
| Strings.Utf16LengthAstral | src/PdfSummary/Features/PdfProcessing/PdfSummarizer.cs:23 | a string of characters above U+FFFF takes two code units per character |
| SentenceSummarizer.NotTheMessage | src/PdfSummary/Features/PdfProcessing/PdfSummarizer.cs:17-38 | a summary that starts with a sentence is never the "No text to summarize." message |
| SentenceSummarizer.TrimmedPieceIsClean | src/PdfSummary/Features/PdfProcessing/PdfSummarizer.cs:21-22 | trimming a terminator-free piece leaves no terminator and no white space at either end |
| SentenceSummarizer.PickedPositionsShape | src/PdfSummary/Features/PdfProcessing/PdfSummarizer.cs:29-36 | min(n, 3) strictly increasing positions below n: first 0, last n-1, and n/2 in the middle only when n > 2 |
| SentenceSummarizer.SummaryLinesArePicked | src/PdfSummary/Features/PdfProcessing/PdfSummarizer.cs:29-36 | the summary lines are the candidates at the picked positions, in that order |
| SentenceSummarizer.RenderedSummaryEnds | src/PdfSummary/Features/PdfProcessing/PdfSummarizer.cs:29-38 | no candidates give ""; otherwise the text starts with the first candidate + "." and ends with the last + "." |
| SentenceSummarizer.SummaryFirstAndLast | src/PdfSummary/Features/PdfProcessing/PdfSummarizer.cs:17-38 | a non-empty text without candidates gives "", not the "No text" message; otherwise the summary starts with the first and ends with the last candidate |
| SentenceSummarizer.NoTextMessageIff | src/PdfSummary/Features/PdfProcessing/PdfSummarizer.cs:17-18 | the "No text to summarize." message is returned exactly for a null or empty text |
| SentenceSummarizer.RenderContainsLines | src/PdfSummary/Features/PdfProcessing/PdfSummarizer.cs:30-36 | every summary line occurs in the rendered summary |
| SentenceSummarizer.ThreePieces | src/PdfSummary/Features/PdfProcessing/PdfSummarizer.cs:21 | three non-empty terminator-free pieces each ended by "." split back into exactly those pieces |
| SentenceSummarizer.ThreeSentences | src/PdfSummary/Features/PdfProcessing/PdfSummarizer.cs:21-38 | three long terminated sentences give exactly their three trims, one per line |
| SentenceSummarizer.FirstAndLastOfThree | src/PdfSummary/Features/PdfProcessing/PdfSummarizer.cs:21-38 | for three long terminated pieces, the summary contains the first piece and the start of the trimmed last piece |
| SentenceSummarizer.UnitTestText | src/PdfSummary.Tests/PdfSummarizerTests.cs:14-21 | the unit test's text summarises to a string containing its first and its last sentence |
| FrequencySummarizer.CountedWordsMultiset | app/features/pdf_processing/pdf_summarizer.py:42-43 | a token is kept exactly as often as it occurs when it is alphanumeric and not a stop word, and never otherwise |
| FrequencySummarizer.FrequencyTable | app/features/pdf_processing/pdf_summarizer.py:42-45 | the table holds exactly the counted tokens of the lower-cased text, each with its number of occurrences |
| FrequencySummarizer.TokenScoreAppend | app/features/pdf_processing/pdf_summarizer.py:50-55 | a sentence's score adds up over its tokens, repeats included |
| FrequencySummarizer.HitsIff | app/features/pdf_processing/pdf_summarizer.py:51 | a sentence hits the table exactly when one of its tokens is in it |
| FrequencySummarizer.NoHitsNoScore | app/features/pdf_processing/pdf_summarizer.py:50-55 | a sentence with no token in the table scores 0 |
| FrequencySummarizer.ScoreTokens | app/features/pdf_processing/pdf_summarizer.py:50-55 | the inner loop adds the sentence's entry (created on the first hit, then incremented) to the scores |
| FrequencySummarizer.ScoreSentences | app/features/pdf_processing/pdf_summarizer.py:48-55 | the nested loop builds exactly the scores function's dictionary |
| FrequencySummarizer.ScoresShape | app/features/pdf_processing/pdf_summarizer.py:48-55 | score entries come in increasing sentence order, all below the sentence count |
| FrequencySummarizer.ScoresLookup | app/features/pdf_processing/pdf_summarizer.py:48-55 | sentence i has a score exactly when it hits the table, and that score is the sum of its tokens' frequencies |
| FrequencySummarizer.SortRanked | app/features/pdf_processing/pdf_summarizer.py:59 | the stable descending sort by score orders by score, ties by earlier sentence |
| FrequencySummarizer.SelectionIsTopK | app/features/pdf_processing/pdf_summarizer.py:58-60 | the selection has min(k, #scored) entries from the scores, in sentence order, and every kept entry beats every left-out one |
| FrequencySummarizer.PickedSentencesOutrankOthers | app/features/pdf_processing/pdf_summarizer.py:48-60 | selected sentences each hit the table with their own score, come in document order, and outrank every scored sentence left out |
| FrequencySummarizer.Trunc | app/features/pdf_processing/pdf_summarizer.py:58 | `int()` truncates toward zero |
| FrequencySummarizer.NumSentencesBounds | app/features/pdf_processing/pdf_summarizer.py:58 | at least one sentence is asked for; with a ratio in [0, 1] never more than there are (or 1); with a ratio of at least 1 no fewer than there are, so ratio 1 asks for all |
| FrequencySummarizer.Summarize | app/features/pdf_processing/pdf_summarizer.py:20-73 | the method returns the summary function's dictionary: the selected sentences joined by single spaces, with the word counts |
| FrequencySummarizer.SummaryCounts | app/features/pdf_processing/pdf_summarizer.py:31-38 | blank text or no sentences give summary "" with both counts 0; otherwise original_word_count counts every token of the lower-cased text |
| FrequencySummarizer.WholeTextKept | app/features/pdf_processing/pdf_summarizer.py:58-63 | with ratio >= 1 and every sentence scored, the summary is all sentences joined by spaces, in order |
| FrequencySummarizer.NothingScoredEmptySummary | app/features/pdf_processing/pdf_summarizer.py:48-63 | when no sentence has a counted word the summary is "" |
| CorpusCompaction.KeyParts | app/agents/main/agent.py:33-34 | a key with '_' is type + "_" + name, with no '_' in the type; a key without '_' is both its type and its name |
| CorpusCompaction.PrefixIsType | app/agents/main/agent.py:75-76 | `startswith(t + "_")` holds exactly when the key has '_' and its type is t |
| CorpusCompaction.WhitelistedEntries | app/agents/main/agent.py:44-63 | a metadata entry is kept exactly when it is in the metadata and its key is whitelisted |
| CorpusCompaction.SampleShape | app/agents/main/agent.py:54-67 | the sample is a prefix of the text of min(len, 1000) characters followed by "...", so at most 1003 characters |
| CorpusCompaction.DocSummaryFields | app/agents/main/agent.py:37-67 | a record keeps the key's type and name; page_count only for a pdf dict; a text sample exactly for a pdf/word dict with a string text; metadata only from the type's whitelist |
| CorpusCompaction.SummarizeDocument | app/agents/main/agent.py:31-69 | building one record field by field gives the record function's value, or the error for a non-dict metadata |
| CorpusCompaction.CompactDocuments | app/agents/main/agent.py:28-69 | the corpus loop gives the compaction function's dictionary or its first error |
| CorpusCompaction.FailureSticks | app/agents/main/agent.py:31-69 | once a document fails, the whole compaction fails with that error |
| CorpusCompaction.CompactEntries | app/agents/main/agent.py:29-69 | one record per corpus key, in corpus order, each the record of that key's document |
| CorpusCompaction.CountIsTypeCount | app/agents/main/agent.py:75-76 | the pdf/word counts are the numbers of keys with '_' whose type is pdf/word, so a key without '_' is not counted |
| CorpusCompaction.SummarizeCombinedData | app/agents/main/agent.py:17-119 | the route gives the function's response: 404 for an empty corpus, the summary with the document count otherwise |
| CorpusCompaction.EmptyCorpusIff | app/agents/main/agent.py:22-25 | the 404 "No combined data found" response comes exactly for an empty corpus; a summary reports document_count = number of keys |
| ExcelExtractor.BlankCellIff | app/features/excel_processing/excel_extractor.py:29-37 | a cell is skipped exactly when its text (NaN read as "") strips to "" |
| ExcelExtractor.RowPartsEmptyIff | app/features/excel_processing/excel_extractor.py:37-38 | a row has no parts exactly when all its cells are blank |
| ExcelExtractor.RowPartsMembers | app/features/excel_processing/excel_extractor.py:37 | a part is listed exactly when some non-blank cell renders to it as "header: value", with its own column's header |
| ExcelExtractor.RowTextEmptyIff | app/features/excel_processing/excel_extractor.py:37-39 | the row text is empty exactly when every cell is blank |
| ExcelExtractor.RowLinesCount | app/features/excel_processing/excel_extractor.py:36-39 | there is one line per row with a non-blank cell |
| ExcelExtractor.AppendRowLines | app/features/excel_processing/excel_extractor.py:36-39 | the row loop appends exactly the non-empty row texts, in row order |
| ExcelExtractor.ExtractText | app/features/excel_processing/excel_extractor.py:17-47 | the result is the sheets' entries joined by "\n", or the reader's error with the "Error extracting text from Excel: " prefix |
| ExcelExtractor.EntriesAppend | app/features/excel_processing/excel_extractor.py:24-42 | the layout of two runs of sheets is the layout of the first followed by that of the second |
| ExcelExtractor.SheetEntriesListed | app/features/excel_processing/excel_extractor.py:24-42 | every entry of every sheet (heading, headers line, rows, separator) is among the workbook's entries |
| ExcelExtractor.RowLineListed | app/features/excel_processing/excel_extractor.py:36-39 | every row with a non-blank cell has its line among the entries |
| ExcelExtractor.MetadataAppend | app/features/excel_processing/excel_extractor.py:64-74 | sheet_count is the number of names; totals and names add up over a workbook split in two |
| ExcelExtractor.MetadataOne | app/features/excel_processing/excel_extractor.py:64-74 | one sheet counts its own rows and columns |
| ExcelServices.TotalRowsSum | app/features/excel_processor/services.py:59-60 | the total succeeds exactly when every sheet has a summary, and is then the sum of rows (missing counted as 0); otherwise it names a missing sheet |
| ExcelServices.SheetBlocksCount | app/features/excel_processor/services.py:68-77 | one part per sheet plus one per sheet with numeric columns and statistics |
| ExcelServices.AppendSheetParts | app/features/excel_processor/services.py:68-77 | the sheet loop appends exactly the sheet blocks, or fails on the first missing key |
| ExcelServices.GenerateSimpleTextSummary | app/features/excel_processor/services.py:55-86 | the method gives the summary function's text: parts joined by single spaces, or the CSV sentence with defaults 0 |
| ExcelServices.WorkbookOpening | app/features/excel_processor/services.py:62-65 | the workbook text starts with the sheet count and the names joined by ", " |
| ExcelServices.BranchIff | app/features/excel_processor/services.py:57-86 | the text starts "Excel file contains" exactly for a summary with sheet_names, and "CSV file with" otherwise |
| ExcelServices.SheetSummariesLookup | app/features/excel_processor/services.py:42-47 | each sheet name maps to the summary of its own frame |
| ExcelServices.ProcessExcel | app/features/excel_processor/services.py:13-53 | the method builds the function's summary and text |
| ExcelServices.ProcessedSummaryText | app/features/excel_processor/services.py:24-51 | the CSV branch is taken exactly for a ".csv" path; the text of what process_excel builds never fails and totals all sheets' rows |
| WordAgent.MetadataDefaults | app/agents/word/agent.py:87-102 | each of the nine properties sits under its own key, in order, and reads "Not available" exactly when it is missing, empty or already that text, and its own value whenever it is set |
| WordAgent.ExtractParagraphs | app/agents/word/agent.py:104-114 | the paragraph loop gives the paragraph records and text functions' values |
| WordAgent.ParagraphRecordsSound | app/agents/word/agent.py:106-113 | every record is a non-empty stripped paragraph at its own index, with its style or "Normal" |
| WordAgent.ParagraphRecordsIncrease | app/agents/word/agent.py:106-113 | at most one record per paragraph, indices below the count and strictly increasing |
| WordAgent.ParagraphRecordsComplete | app/agents/word/agent.py:106-113 | every paragraph with non-blank text has a record |
| WordAgent.ParagraphTextIsRecords | app/agents/word/agent.py:106-114 | the paragraph text is the kept paragraphs, each followed by "\n\n" |
| WordAgent.ExtractRow | app/agents/word/agent.py:126-130 | a row's data is its stripped cells, and each cell adds its stripped text and " " |
| WordAgent.ExtractTableRow | app/agents/word/agent.py:125-132 | one pass of the row loop appends the stripped row and its text plus "\n" |
| WordAgent.ExtractTable | app/agents/word/agent.py:117-135 | a table gives its record, and its rows' text followed by "\n" |
| WordAgent.ExtractTables | app/agents/word/agent.py:116-135 | the table loop gives the table records and text functions' values |
| WordAgent.TableRecordsShape | app/agents/word/agent.py:118-123 | each record keeps its index and its row count; column_count is the table's when it has rows and 0 otherwise |
| WordAgent.ProcessWordDocument | app/agents/word/agent.py:64-156 | the method builds the document data function's value, or the prefixed error |
| WordAgent.ParagraphCountBound | app/agents/word/agent.py:74-113 | paragraph_count counts all paragraphs, so it bounds the records |
| WordAgent.CellsBlank | app/agents/word/agent.py:127-130 | a row's text is blank exactly when each of its cells strips to "" |
| WordAgent.RowsBlank | app/agents/word/agent.py:125-132 | a table's text is blank exactly when every cell is |
| WordAgent.TablesBlank | app/agents/word/agent.py:117-135 | the table text is blank exactly when every cell of every table is |
| WordAgent.ParagraphsBlank | app/agents/word/agent.py:106-114 | the paragraph text is blank exactly when every paragraph strips to "" |
| WordAgent.AllTextBlankIff | app/agents/word/agent.py:105-146 | all_text strips to "" exactly when every paragraph and every cell does |
| WordAgent.ChunksFallback | app/agents/word/agent.py:146-150 | a blank document gives exactly ["No text content found in document"]; any other hands all_text to the splitter |
| WordAgent.AllTextStartsWithParagraphs | app/agents/word/agent.py:105-135 | all_text begins with the kept paragraphs, each followed by "\n\n" |
| WordAgent.JoinPath | app/agents/word/agent.py:17 | the joined path ends with the given path, and an absolute path replaces the folder |
| WordAgent.WordNameExamples | app/agents/word/agent.py:21 | "report.DOCX" and "Notes.Doc" are Word names; "notes.txt", "macro.docm" and "doc" are not |
| WordAgent.WordNameByEnding | app/agents/word/agent.py:21 | for every stem, a name ending in ".DOC" or ".DOCX" is a Word name and one ending in ".docm" is not |
| WordAgent.LowerOfEnding | app/agents/word/agent.py:21 | lower-casing a name lower-cases its ending in place |
| WordAgent.ScannedOf | app/agents/word/agent.py:53-59 | the response carries the data and the base name; its summary is the shown summary with every "\n" replaced by "<br>", so it holds no line feed |
| WordAgent.ScannedOfImages | app/agents/word/agent.py:53 | the response's summary is the shown summary character by character, each "\n" becoming "<br>" and every other character kept in order; a summary without "\n" comes back unchanged |
| WordAgent.AppendProperties | app/agents/word/agent.py:43-45 | the metadata loop gives the properties function's text |
| WordAgent.ScanWord | app/agents/word/agent.py:10-62 | the method gives the scan function's response |
| WordAgent.ScanOrder | app/agents/word/agent.py:12-22 | rejections come in order: no path (400), file not found (404), not a .docx/.doc name (400); only then is the document processed |
| WordAgent.ScannedSummaryHasNoNewline | app/agents/word/agent.py:53 | a processed request's summary is its shown summary with every "\n" replaced by "<br>", holds no line feed, and its file name is the base name |
| WordAgent.AddPropertiesIsLines | app/agents/word/agent.py:41-46 | the metadata loop appends exactly the lines of the shown entries, in order |
| WordAgent.PropertyLinesMembers | app/agents/word/agent.py:43-45 | a line is listed exactly when an entry whose value is truthy and not "Not available" renders to it |
| WordAgent.DisplaySummaryShape | app/agents/word/agent.py:32-50 | the summary is the header, then the properties block when metadata is non-empty, then the chunk count |
| Strings.ReplaceCharIsImages | app/agents/word/agent.py:53 | `replace` with a one-character pattern maps each character to its image (the replacement for the pattern, itself otherwise) and keeps their order |
| Strings.ReplaceCharAbsent | app/agents/word/agent.py:53 | `replace` leaves a string without the pattern unchanged |
| Strings.Basename | app/features/pdf_processor/services.py:113 | the base name has no '/', ends the path, and is the path itself when the path has no '/' |
| PdfServices.DocumentDelimited | app/features/pdf_processor/services.py:38-39 | the result starts with "<document>", ends with "</document>", and is 21 characters longer than the text |
| PdfServices.UndelimitedDelimited | app/features/pdf_processor/services.py:38-39 | taking the tags off gives back exactly the wrapped text |
| PdfServices.DelimitedUndelimited | app/features/pdf_processor/services.py:38-39 | every tagged string is the wrapping of what its tags enclose |
| PdfServices.ReadPdf | app/features/pdf_processor/services.py:55-71 | the page loop gives the read function's value: the assembled text, the fixed message for blank text, or "Error reading PDF: " and the exception's message |
| PdfServices.PagesFailureSticks | app/features/pdf_processor/services.py:57-71 | once a page's extraction raises, the read ends with that error |
| PdfServices.PagesTextAppend | app/features/pdf_processor/services.py:59-63 | page assembly is compositional: the text of two runs of pages is their texts concatenated, the first failure winning |
| PdfServices.PagesTextOne | app/features/pdf_processor/services.py:61-63 | a page adds its text and "\n" when the text is non-empty, and nothing when it is empty or absent |
| PdfServices.PagesTextFailure | app/features/pdf_processor/services.py:57-71 | the read fails exactly when some page raises, with the first such page's message |
| PdfServices.PagesTextBlank | app/features/pdf_processor/services.py:59-66 | the assembled text is blank exactly when every page text is |
| PdfServices.ReadPdfBlankIff | app/features/pdf_processor/services.py:65-68 | with every page read, the fixed "No readable text" message comes exactly when all page texts are blank; otherwise the assembled text |
| PdfServices.ReadPdfNeverBlank | app/features/pdf_processor/services.py:55-71 | read_pdf never returns blank text |
| PdfServices.TruncatedShape | app/features/pdf_processor/services.py:79-81 | a text of at most 15000 characters is kept; a longer one keeps its first 15000 plus the note, so at most 15000 + 34 characters |
| PdfServices.AskLlmGuardAndText | app/features/pdf_processor/services.py:73-91 | with no client the answer is the fixed error whatever the model would say; in every case the answer does not depend on `text`, so the truncation never reaches the messages |
| PdfServices.Prompt | app/features/pdf_processor/services.py:94-96 | two messages: a system message, then a user message |
| PdfServices.GenerateShape | app/features/pdf_processor/services.py:93-109 | the user content is the instructions followed by the whole text delimited, untruncated; the result is the answer (or the error text) followed by "\n\n" |
| PdfServices.SummarySections | app/features/pdf_processor/services.py:115-122 | the headings Name, Description and Locations appear in that order, each followed on the next line by its answer |
| PdfServices.ProcessPdfShape | app/features/pdf_processor/services.py:111-123 | the document has the path's base name and read_pdf's non-blank text, and its summary lays out the three answers about that text |
| SharedUtils.MissingFieldsMembers | app/features/shared/utils.py:7 | a field is reported missing exactly when it is required and absent from the data |
| SharedUtils.MissingFieldsRepeats | app/features/shared/utils.py:7 | a missing field is reported as many times as it is required |
| SharedUtils.ValidateInputIff | app/features/shared/utils.py:5-10 | (True, "Valid input") exactly when every required field is present; otherwise False with "Missing required fields: " and the missing fields joined by ", " |
| Uploads.LastExtension | app/features/pdf_processor/views.py:16 | the extension has no '.', and the name ends with "." and the extension |
| Uploads.NoDotRejected | app/features/pdf_processor/views.py:15-16 | a name without '.' is never allowed |
| Uploads.StemDoesNotMatter | app/features/pdf_processor/views.py:16 | whatever the stem (empty, or with dots of its own), the name is allowed exactly when its lower-cased last extension is |
| Uploads.SplitsAtLastDot | app/features/pdf_processor/views.py:16 | every name with a '.' is its stem, ".", and its last extension |
| PdfViews.AllowedFileIff | app/features/pdf_processor/views.py:13-16 | a name is allowed exactly when its lower-cased last extension is "pdf"; no '.' means never |
| PdfViews.UpperCaseAllowed | app/features/pdf_processor/views.py:16 | any name ending in ".PDF" (such as "report.PDF" or ".PDF") is allowed |
| PdfViews.LastExtensionCounts | app/features/pdf_processor/views.py:16 | any name ending in ".exe" (such as "report.pdf.exe") is refused |
| PdfViews.UploadPdfOrder | app/features/pdf_processor/views.py:24-61 | "No file part", then "No selected file", then "Invalid file type"; a request goes on exactly when its file name is allowed |
| ExcelViews.AllowedFileIff | app/features/excel_processor/views.py:8-12 | a name is allowed exactly when its lower-cased last extension is "xls" or "xlsx"; no '.' means never |
| ExcelViews.CsvRejected | app/features/excel_processor/views.py:8-12 | any name ending in ".csv" (such as "data.csv") is refused at this route |
| ExcelViews.UpperCaseAllowed | app/features/excel_processor/views.py:12 | any name ending in ".XLSX" (such as "Book.XLSX") is allowed |
| ExcelViews.UploadExcelOrder | app/features/excel_processor/views.py:22-34 | "No file part", then "No selected file", then "Invalid file type"; a request goes on exactly when its file name is allowed |

## Left out

- Chat-model and network clients are outside the model. This covers the OpenAI calls in app/agents/main/agent.py and app/features/pdf_processor/services.py, and everything in app/llm_client.py. An answer is an input function of the request.
- The main agent's prompt text and the `json.dumps` of the compact data are not modelled. The model's answer is a function of the compact data itself; its `.strip()` and the 500 for metadata that is not a dictionary are modelled, but the 500 that `except Exception` returns when the chat call itself raises (app/agents/main/agent.py:96-104 and 114-119) is not.
- Document readers are inputs: PyPDF2's reader and `extract_text`, python-docx's document and core properties, pandas/openpyxl's sheets and frames. In the PDF and Word code their failures are error messages.
- ExcelServices.ProcessExcel: `process_excel` has no `try`, so an exception from `read_csv`, `load_workbook` or `read_excel` propagates to the caller; the model's `readCsv` and `readSheet` are total, and that exception path is not modelled.
- NLTK's `sent_tokenize`, `word_tokenize`, `str.lower`, `isalnum` and the stop-word list are fields of `FrequencySummarizer.Toolkit`.
- The `RecursiveCharacterTextSplitter` is an input function. Its chunk size and overlap are not modelled.
- `str.title()` in the Word agent's property lines is an input function.
- `os.path.exists` and `os.path.getsize` are inputs. The file size arrives already formatted by `:.2f`.
- Floating point is not modelled. The summary ratio is an exact `real`, and pandas `describe()` statistics are reduced to whether they are present.
- Flask plumbing is not modelled: routing, `jsonify`, saving and removing uploads, `makedirs`, `secure_filename`, logging and `print`.
- PdfViews.UploadPdfOrder: stops where the upload is accepted. Saving the file, the `await` on the synchronous `process_pdf` and the 500 response it then causes are not modelled.
- ExcelViews.UploadExcelOrder: stops where the upload is accepted. Passing the upload object rather than a path to `process_excel` is not modelled.
- PdfViews.AllowedFileIff and ExcelViews.AllowedFileIff: lower-case only ASCII letters. No other character lower-cases to a letter of "pdf", "xls" or "xlsx", so acceptance is unaffected.
- PdfServices.AskLlmGuardAndText: the answer is always a string. A reply whose content is `None`, which would make `generate_*` raise, is not modelled. The unused `max_length` parameter is dropped.
- PdfServices.ReadPdf: only the reader and per-page extraction can raise. Other exceptions inside the `try` are not distinguished.
- `format_date` in app/features/shared/utils.py is not modelled. It is a thin wrapper over `strftime`.
- WordAgent.ScanWord: the 500 response for an exception raised while building the summary is not modelled. `process_word_document` catches its own exceptions, and the summary is built from strings.
- A sheet is its header list and its rows of cells. A data frame has a header for every cell; a cell past the end of the header list, which a reader never produces, gets the header "".
- The C# line terminator (`Environment.NewLine`) is a parameter of the sentence summarizer.
