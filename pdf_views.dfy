/** The PDF upload route: its extension check and the order in which it
    rejects a request. */
module PdfViews {
  import opened Wrappers
  import opened Strings
  import opened Uploads

  const AllowedExtensions: set<string> := {"pdf"}

  /** `allowed_file`. */
  predicate AllowedFile(filename: string) {
    HasAllowedExtension(filename, AllowedExtensions)
  }

  /** A name is allowed exactly when its last extension is "pdf" in any
      case; a bare ".pdf" is allowed, a name without '.' never is. */
  lemma AllowedFileIff(stem: string, ext: string)
    requires '.' !in ext
    ensures AllowedFile(stem + "." + ext) <==> AsciiLower(ext) == "pdf"
    ensures '.' !in stem ==> !AllowedFile(stem)
  {
    StemDoesNotMatter(stem, ext, AllowedExtensions);
  }

  /** The extension is compared in lower case: "report.PDF" and any other
      name ending in ".PDF" are allowed. */
  lemma UpperCaseAllowed(stem: string)
    ensures AllowedFile(stem + ".PDF")
  {
    assert stem + ".PDF" == stem + "." + "PDF";
    assert AllowedFile(stem + "." + "PDF") by {
      AllowedFileIff(stem, "PDF");
      LowerPdf("PDF");
    }
  }

  lemma LowerPdf(ext: string)
    requires ext == "pdf" || ext == "PDF"
    ensures AsciiLower(ext) == "pdf"
  {
    var lower := AsciiLower(ext);
    assert lower[0] == 'p' && lower[1] == 'd' && lower[2] == 'f';
  }

  /** Only the last extension counts: "report.pdf.exe", or any other name
      ending in ".exe", is refused even though ".pdf" may come before it. */
  lemma LastExtensionCounts(stem: string)
    ensures !AllowedFile(stem + ".exe")
  {
    assert stem + ".exe" == stem + "." + "exe";
    assert !AllowedFile(stem + "." + "exe") by {
      AllowedFileIff(stem, "exe");
      assert AsciiLower("exe")[0] == 'e';
    }
  }

  /** `upload_pdf` up to the point where the file is saved and handed to
      `process_pdf`. */
  function UploadPdf(file: Option<FilePart>): Outcome {
    Screen(file, AllowedFile)
  }

  /** The rejections come in the route's order; a request goes on to be
      processed exactly when it has a file part whose name is allowed, and
      then under that name. */
  lemma UploadPdfOrder(file: Option<FilePart>)
    ensures file.None? ==> UploadPdf(file) == NoFilePart
    ensures file.Some? && file.value.filename == Some("") ==> UploadPdf(file) == NoSelectedFile
    ensures UploadPdf(file).Accepted? <==>
      file.Some? && file.value.filename.Some? && AllowedFile(file.value.filename.value)
    ensures UploadPdf(file).Accepted? ==> UploadPdf(file).filename == file.value.filename.value
    ensures UploadPdf(file) in {NoFilePart, NoSelectedFile, InvalidFileType} || UploadPdf(file).Accepted?
  {
    if file.Some? && file.value.filename == Some("") {
      NoDotRejected("", AllowedExtensions);
    }
  }
}
