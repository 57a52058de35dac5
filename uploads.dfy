/** What the two upload routes share: the extension test behind both
    `allowed_file` functions and the order in which an upload request is
    turned away. */
module Uploads {
  import opened Wrappers
  import opened Strings

  /** `filename.rsplit('.', 1)[1]`: the text after the last '.'. */
  function LastExtension(filename: string): (r: string)
    requires '.' in filename
    ensures '.' !in r && EndsWith(filename, "." + r)
  {
    var k := LastIndexOf(filename, '.');
    assert filename[k..] == "." + filename[k + 1..];
    filename[k + 1..]
  }

  /** `'.' in filename and filename.rsplit('.', 1)[1].lower() in extensions`. */
  predicate HasAllowedExtension(filename: string, extensions: set<string>) {
    '.' in filename && AsciiLower(LastExtension(filename)) in extensions
  }

  /** A name without a '.' is never allowed. */
  lemma NoDotRejected(filename: string, extensions: set<string>)
    requires '.' !in filename
    ensures !HasAllowedExtension(filename, extensions)
  {
  }

  /** Only the text after the last '.' counts, compared in lower case:
      whatever the stem (empty, or holding dots of its own), a name is
      allowed exactly when its final extension is. */
  lemma StemDoesNotMatter(stem: string, ext: string, extensions: set<string>)
    requires '.' !in ext
    ensures HasAllowedExtension(stem + "." + ext, extensions) <==> AsciiLower(ext) in extensions
  {
    var f := stem + "." + ext;
    var k := LastIndexOf(f, '.');
    assert f[|stem|] == '.';
    assert f[k + 1..] == ext;
  }

  /** Every name with a '.' splits into a stem and a dot-free extension, so
      `StemDoesNotMatter` covers every name `NoDotRejected` does not. */
  lemma SplitsAtLastDot(filename: string)
    requires '.' in filename
    ensures var k := LastIndexOf(filename, '.');
      filename == filename[..k] + "." + LastExtension(filename)
  {
  }

  /** `request.files['file']` when the request has that part: its
      `filename`, which may be `None`. A `FileStorage` is truthy exactly when
      its filename is. */
  datatype FilePart = FilePart(filename: Option<string>)

  datatype Outcome =
    | Rejected(error: string, status: nat)
    | Accepted(filename: string)

  const NoFilePart := Rejected("No file part", 400)
  const NoSelectedFile := Rejected("No selected file", 400)
  const InvalidFileType := Rejected("Invalid file type", 400)

  /** The checks both upload routes make before touching the file, in their
      order: a missing part, an empty name, then a falsy file or a name
      `allowed` refuses. */
  function Screen(file: Option<FilePart>, allowed: string -> bool): Outcome {
    match file
    case None => NoFilePart
    case Some(part) =>
      if part.filename == Some("") then NoSelectedFile
      else if part.filename.Some? && allowed(part.filename.value) then Accepted(part.filename.value)
      else InvalidFileType
  }
}
