/** The spreadsheet upload route: its extension check and the order in
    which it rejects a request. */
module ExcelViews {
  import opened Wrappers
  import opened Strings
  import opened Uploads

  const AllowedExtensions: set<string> := {"xls", "xlsx"}

  /** `allowed_file`. */
  predicate AllowedFile(filename: string) {
    HasAllowedExtension(filename, AllowedExtensions)
  }

  /** A name is allowed exactly when its last extension is "xls" or "xlsx"
      in any case; a name without '.' never is. */
  lemma AllowedFileIff(stem: string, ext: string)
    requires '.' !in ext
    ensures AllowedFile(stem + "." + ext) <==> AsciiLower(ext) == "xls" || AsciiLower(ext) == "xlsx"
    ensures '.' !in stem ==> !AllowedFile(stem)
  {
    StemDoesNotMatter(stem, ext, AllowedExtensions);
  }

  /** A CSV file ("data.csv" or any other name ending in ".csv") is turned
      away here, although the spreadsheet service has a branch for it. */
  lemma CsvRejected(stem: string)
    ensures !AllowedFile(stem + ".csv")
  {
    assert stem + ".csv" == stem + "." + "csv";
    assert !AllowedFile(stem + "." + "csv") by {
      AllowedFileIff(stem, "csv");
      assert AsciiLower("csv")[0] == 'c';
    }
  }

  /** The extension is compared in lower case: "Book.XLSX" and any other
      name ending in ".XLSX" are allowed. */
  lemma UpperCaseAllowed(stem: string)
    ensures AllowedFile(stem + ".XLSX")
  {
    assert stem + ".XLSX" == stem + "." + "XLSX";
    assert AllowedFile(stem + "." + "XLSX") by {
      AllowedFileIff(stem, "XLSX");
      LowerXlsx();
    }
  }

  lemma LowerXlsx()
    ensures AsciiLower("XLSX") == "xlsx"
  {
    var lower := AsciiLower("XLSX");
    assert lower[0] == 'x' && lower[1] == 'l' && lower[2] == 's' && lower[3] == 'x';
  }

  /** `upload_excel` up to the point where the file is handed to
      `process_excel`. */
  function UploadExcel(file: Option<FilePart>): Outcome {
    Screen(file, AllowedFile)
  }

  /** The rejections come in the route's order; a request goes on to be
      processed exactly when it has a file part whose name is allowed. */
  lemma UploadExcelOrder(file: Option<FilePart>)
    ensures file.None? ==> UploadExcel(file) == NoFilePart
    ensures file.Some? && file.value.filename == Some("") ==> UploadExcel(file) == NoSelectedFile
    ensures UploadExcel(file).Accepted? <==>
      file.Some? && file.value.filename.Some? && AllowedFile(file.value.filename.value)
    ensures UploadExcel(file).Accepted? ==> UploadExcel(file).filename == file.value.filename.value
    ensures UploadExcel(file) in {NoFilePart, NoSelectedFile, InvalidFileType} || UploadExcel(file).Accepted?
  {
    if file.Some? && file.value.filename == Some("") {
      NoDotRejected("", AllowedExtensions);
    }
  }
}
