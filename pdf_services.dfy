/** `PDFProcessorService`: reads the text of a PDF page by page, wraps it in
    `<document>` tags inside three fixed prompts, asks a chat model for the
    defects' name, description and locations, and lays the three answers out
    as one summary. The PDF reader and the chat model are inputs. */
module PdfServices {
  import opened Wrappers
  import opened Strings

  // ---------------------------------------------------------------------
  // Prompts
  // ---------------------------------------------------------------------

  /** The indentation inside the system prompt's triple-quoted literal. */
  const PromptIndent := "                    "

  const SystemPrompt: string :=
    "\n" + PromptIndent
    + "You are a helpful assistant that searches through documents and finds relevant info for the user. \n"
    + PromptIndent
    + "You will be asked to find an information in a document or to infer an information based from the document content.\n"
    + PromptIndent
    + "Document will be delimited using <document> and </document> tags.\n"
    + PromptIndent
    + "Your answer should contain only the information that is relevant to the question.\n"
    + PromptIndent
    + "If there is no information in the document that can be used to answer the question, you should say \"I don't know\" or \"I can't help with that\".\n"
    + PromptIndent
    + "Your answer should be in Polish language.\n"
    + PromptIndent

  const LocationInstructions: string :=
    "\n\nProvide a location of the defects in the document.\n"
    + "Defects may be in different locations in the document. Provide every location in the document which has a corresponding defect.\n"
    + "If there are no defects in the document, please say \"There are no defects in the document\".\n"

  const NameInstructions: string :=
    "\n\nProvide a name of the defect or defects from the following report document.\n"
    + "The name of the defect should be a short, consise name you come up with based on the content of the document.\n"
    + "Let it be of max 250 characters\n"

  const DescriptionInstructions: string :=
    "\n\nProvide a description of a defect or defects from the following report document.\n"
    + "The description should be an overview of the defect, including its name and location which is contained in the document.\n"
    + "If there are multiple defects in the document, please provide a description for each defect.\n"

  const OpenTag := "<document>"
  const CloseTag := "</document>"

  /** `get_document_delimited`. */
  function DocumentDelimited(text: string): (r: string)
    ensures |r| == |OpenTag| + |text| + |CloseTag|
    ensures StartsWith(r, OpenTag) && EndsWith(r, CloseTag)
  {
    OpenTag + text + CloseTag
  }

  /** Takes the tags off again, if the string carries both. */
  function Undelimited(s: string): (r: Option<string>)
    ensures r.Some? ==> |r.value| + |OpenTag| + |CloseTag| == |s|
  {
    if |OpenTag| + |CloseTag| <= |s| && StartsWith(s, OpenTag) && EndsWith(s, CloseTag)
    then Some(s[|OpenTag|..|s| - |CloseTag|])
    else None
  }

  /** The wrapped text is recovered exactly, whatever it contains (tags
      included). */
  lemma UndelimitedDelimited(text: string)
    ensures Undelimited(DocumentDelimited(text)) == Some(text)
  {
    var s := DocumentDelimited(text);
    assert s[|OpenTag|..|s| - |CloseTag|] == text;
  }

  /** Every string the tags can be taken off is the wrapping of what they
      enclose, so wrapping is a bijection onto the tagged strings. */
  lemma DelimitedUndelimited(s: string)
    requires Undelimited(s).Some?
    ensures DocumentDelimited(Undelimited(s).value) == s
  {
    var t := Undelimited(s).value;
    assert s == s[..|OpenTag|] + t + s[|s| - |CloseTag|..];
  }

  // ---------------------------------------------------------------------
  // read_pdf
  // ---------------------------------------------------------------------

  /** What `page.extract_text()` gives for one page: nothing (`None`), a
      string (possibly empty), or an exception with its message. */
  datatype PageText = NoText | Text(text: string) | ExtractError(message: string)

  const NoReadableText := "No readable text found" + " in the PDF. The document might be scanned or contain only images."
  const ReadErrorPrefix := "Error reading PDF: "

  /** What one page adds to the text: its text and a newline when the text
      is truthy, nothing otherwise. */
  function PageContribution(p: PageText): string {
    if p.Text? && p.text != "" then p.text + "\n" else ""
  }

  /** The text the page loop accumulates, or the message of the first page
      whose extraction raised. */
  function PagesText(pages: seq<PageText>): Result<string, string>
    decreases |pages|
  {
    if pages == [] then Success("")
    else
      match PagesText(pages[..|pages| - 1])
      case Failure(e) => Failure(e)
      case Success(t) =>
        var p := pages[|pages| - 1];
        if p.ExtractError? then Failure(p.message) else Success(t + PageContribution(p))
  }

  /** `read_pdf`, where `reader` is what `PdfReader(file_path)` gives: its
      pages, or the message of the exception it raised. */
  function ReadPdfOf(reader: Result<seq<PageText>, string>): string {
    match reader
    case Failure(e) => ReadErrorPrefix + e
    case Success(pages) =>
      match PagesText(pages)
      case Failure(e) => ReadErrorPrefix + e
      case Success(text) => if PyStrip(text) == "" then NoReadableText else text
  }

  /** `read_pdf`. */
  method ReadPdf(reader: Result<seq<PageText>, string>) returns (content: string)
    ensures content == ReadPdfOf(reader)
  {
    if reader.Failure? {
      return ReadErrorPrefix + reader.error;
    }
    var pages := reader.value;
    var text := "";
    var i := 0;
    while i < |pages|
      invariant 0 <= i <= |pages|
      invariant PagesText(pages[..i]) == Success(text)
    {
      assert pages[..i + 1][..i] == pages[..i];
      var page := pages[i];
      if page.ExtractError? {
        PagesFailureSticks(pages, i + 1);
        return ReadErrorPrefix + page.message;
      }
      ghost var before := text;
      if page.Text? && page.text != "" {
        text := text + (page.text + "\n");
      }
      assert text == before + PageContribution(page);
      i := i + 1;
    }
    assert pages[..i] == pages;
    if PyStrip(text) == "" {
      return NoReadableText;
    }
    content := text;
  }

  lemma {:induction false} PagesFailureSticks(pages: seq<PageText>, n: nat)
    requires n <= |pages| && PagesText(pages[..n]).Failure?
    ensures PagesText(pages) == PagesText(pages[..n])
    decreases |pages| - n
  {
    if n == |pages| {
      assert pages[..n] == pages;
    } else {
      assert pages[..n + 1][..n] == pages[..n];
      PagesFailureSticks(pages, n + 1);
    }
  }

  /** Page assembly is compositional: the text of two runs of pages is the
      text of the first followed by the text of the second, and the first
      failure wins. With `PagesTextOne` this says the text is every truthy
      page text followed by "\n", in page order, and nothing else. */
  lemma {:induction false} PagesTextAppend(a: seq<PageText>, b: seq<PageText>)
    ensures PagesText(a + b) ==
      match PagesText(a)
      case Failure(e) => Failure(e)
      case Success(x) =>
        match PagesText(b)
        case Failure(e) => Failure(e)
        case Success(y) => Success(x + y)
    decreases |b|
  {
    if b == [] {
      assert a + b == a;
      if PagesText(a).Success? {
        assert PagesText(a).value + "" == PagesText(a).value;
      }
    } else {
      var b' := b[..|b| - 1];
      var p := b[|b| - 1];
      assert (a + b)[..|a + b| - 1] == a + b' && (a + b)[|a + b| - 1] == p;
      PagesTextAppend(a, b');
      if PagesText(a).Success? && PagesText(b').Success? && !p.ExtractError? {
        var x, y := PagesText(a).value, PagesText(b').value;
        assert PagesText(a + b) == Success(x + y + PageContribution(p));
        Seqs.AppendAssoc(x, y, PageContribution(p));
      }
    }
  }

  /** One page: a truthy text and a newline, nothing for an empty or absent
      text, the exception's message for a failed extraction. */
  lemma PagesTextOne(p: PageText)
    ensures PagesText([p]) ==
      match p
      case NoText => Success("")
      case Text(s) => Success(if s == "" then "" else s + "\n")
      case ExtractError(m) => Failure(m)
  {
    assert [p][..0] == [];
    assert "" + PageContribution(p) == PageContribution(p);
  }

  /** The loop fails exactly when some page's extraction raised, and then with
      the message of the first such page. */
  lemma {:induction false} PagesTextFailure(pages: seq<PageText>)
    ensures PagesText(pages).Success? <==> forall i :: 0 <= i < |pages| ==> !pages[i].ExtractError?
    ensures PagesText(pages).Failure? ==>
      exists i :: 0 <= i < |pages| && pages[i] == ExtractError(PagesText(pages).error)
        && forall j :: 0 <= j < i ==> !pages[j].ExtractError?
    decreases |pages|
  {
    if pages != [] {
      var init := pages[..|pages| - 1];
      PagesTextFailure(init);
      assert forall i :: 0 <= i < |init| ==> init[i] == pages[i];
      if PagesText(init).Failure? {
        var i :| 0 <= i < |init| && init[i] == ExtractError(PagesText(init).error)
          && forall j :: 0 <= j < i ==> !init[j].ExtractError?;
        assert pages[i] == ExtractError(PagesText(pages).error);
      } else if pages[|pages| - 1].ExtractError? {
        assert pages[|pages| - 1] == ExtractError(PagesText(pages).error);
      }
    }
  }

  /** A page text that is blank after `str.strip()`. */
  predicate BlankPage(p: PageText) {
    p.Text? ==> AllIn(p.text, IsPySpace)
  }

  /** The assembled text is blank exactly when every page text is. */
  lemma {:induction false} PagesTextBlank(pages: seq<PageText>)
    requires PagesText(pages).Success?
    ensures AllIn(PagesText(pages).value, IsPySpace) <==> forall i :: 0 <= i < |pages| ==> BlankPage(pages[i])
    decreases |pages|
  {
    if pages != [] {
      var init := pages[..|pages| - 1];
      var p := pages[|pages| - 1];
      PagesTextBlank(init);
      var t := PagesText(init).value;
      assert PagesText(pages).value == t + PageContribution(p);
      AllInAppend(t, PageContribution(p), IsPySpace);
      ContributionBlank(p);
      assert (forall i :: 0 <= i < |pages| ==> BlankPage(pages[i]))
         <==> (forall i :: 0 <= i < |init| ==> BlankPage(init[i])) && BlankPage(p) by {
        assert forall i :: 0 <= i < |init| ==> init[i] == pages[i];
      }
    }
  }

  /** What a page adds is blank exactly when the page is. */
  lemma ContributionBlank(p: PageText)
    ensures AllIn(PageContribution(p), IsPySpace) <==> BlankPage(p)
  {
    if p.Text? && p.text != "" {
      AllInAppend(p.text, "\n", IsPySpace);
    }
  }

  /** When every page could be read, `read_pdf` answers with the fixed
      message exactly when all page texts are blank, and with the assembled
      text otherwise. */
  lemma ReadPdfBlankIff(pages: seq<PageText>)
    requires forall i :: 0 <= i < |pages| ==> !pages[i].ExtractError?
    ensures PagesText(pages).Success?
    ensures ReadPdfOf(Success(pages)) ==
      if forall i :: 0 <= i < |pages| ==> BlankPage(pages[i]) then NoReadableText
      else PagesText(pages).value
  {
    PagesTextFailure(pages);
    PagesTextBlank(pages);
    TrimEmptyIff(PagesText(pages).value, IsPySpace);
  }

  /** `read_pdf` never hands on blank text: a reader failure, a failed page
      and an all-blank document each give a message instead. */
  lemma ReadPdfNeverBlank(reader: Result<seq<PageText>, string>)
    ensures PyStrip(ReadPdfOf(reader)) != ""
  {
    match reader
    case Failure(e) => StartsUnblank(ReadErrorPrefix, e);
    case Success(pages) =>
      match PagesText(pages)
      case Failure(e) => StartsUnblank(ReadErrorPrefix, e);
      case Success(text) =>
        if PyStrip(text) == "" {
          StartsUnblank(NoReadableText, "");
        }
  }

  /** A string that starts with a letter does not strip to "". */
  lemma StartsUnblank(a: string, b: string)
    requires a != [] && 'A' <= a[0] <= 'Z'
    ensures PyStrip(a + b) != ""
  {
    TrimEmptyIff(a + b, IsPySpace);
    assert (a + b)[0] == a[0];
  }

  // ---------------------------------------------------------------------
  // ask_llm and the generate_* prompts
  // ---------------------------------------------------------------------

  datatype Message = Message(role: string, content: string)

  /** What is passed to `client.chat.completions.create`. */
  datatype ChatRequest = ChatRequest(model: string, messages: seq<Message>)

  const ModelName := "gpt-4o-mini"
  const NotConfigured := "Error: OpenAI API key not configured. Please set the OPENAI_API_KEY environment variable."
  const LlmErrorPrefix := "Error asking llm: "
  const MaxTextLength := 15000
  const TruncationNote := "... [text truncated due to length]"

  /** The truncation `ask_llm` applies to its `text` argument. */
  function Truncated(text: string): string {
    if |text| > MaxTextLength then text[..MaxTextLength] + TruncationNote else text
  }

  /** Truncation keeps a short text and otherwise keeps its first 15000
      characters, so its result is never longer than 15000 plus the note. */
  lemma TruncatedShape(text: string)
    ensures |Truncated(text)| <= MaxTextLength + |TruncationNote|
    ensures |text| <= MaxTextLength ==> Truncated(text) == text
    ensures |text| > MaxTextLength ==> |Truncated(text)| == MaxTextLength + |TruncationNote|
    ensures StartsWith(Truncated(text), text[..if |text| <= MaxTextLength then |text| else MaxTextLength])
  {
  }

  /** `ask_llm(text, messages)`: `configured` is whether the service found an
      API key, `chat` the completion call (the answer's content, or the
      message of the exception it raised). The truncated text is computed
      and then never used: only `messages` reach the model. */
  function AskLlmOf(configured: bool, text: string, messages: seq<Message>,
                    chat: ChatRequest -> Result<string, string>): string
  {
    if !configured then NotConfigured
    else
      var truncated := Truncated(text);
      match chat(ChatRequest(ModelName, messages))
      case Success(answer) => answer
      case Failure(e) => LlmErrorPrefix + e
  }

  /** Without a client the answer is the fixed error whatever the model would
      say, so no call is made; with one, the answer depends on the messages
      only and never on `text`, so the truncation has no effect on what is
      sent or returned. */
  lemma AskLlmGuardAndText(configured: bool, t1: string, t2: string, messages: seq<Message>,
                           chat1: ChatRequest -> Result<string, string>, chat2: ChatRequest -> Result<string, string>)
    ensures !configured ==> AskLlmOf(configured, t1, messages, chat1) == NotConfigured
    ensures !configured ==> AskLlmOf(configured, t1, messages, chat1) == AskLlmOf(configured, t2, messages, chat2)
    ensures AskLlmOf(configured, t1, messages, chat1) == AskLlmOf(configured, t2, messages, chat1)
  {
  }

  /** The system prompt, then the instructions followed by the delimited
      text. */
  function Prompt(instructions: string, text: string): (r: seq<Message>)
    ensures |r| == 2 && r[0].role == "system" && r[1].role == "user"
  {
    [Message("system", SystemPrompt), Message("user", instructions + DocumentDelimited(text))]
  }

  /** The common shape of the three `generate_*` methods. */
  function Generate(instructions: string, configured: bool, text: string,
                    chat: ChatRequest -> Result<string, string>): string
  {
    AskLlmOf(configured, text, Prompt(instructions, text), chat) + "\n\n"
  }

  /** `generate_defect_name`. */
  function GenerateDefectName(configured: bool, text: string, chat: ChatRequest -> Result<string, string>): string {
    Generate(NameInstructions, configured, text, chat)
  }

  /** `generate_defect_description`. */
  function GenerateDefectDescription(configured: bool, text: string, chat: ChatRequest -> Result<string, string>): string {
    Generate(DescriptionInstructions, configured, text, chat)
  }

  /** `generate_defect_locations`. */
  function GenerateDefectLocations(configured: bool, text: string, chat: ChatRequest -> Result<string, string>): string {
    Generate(LocationInstructions, configured, text, chat)
  }

  /** The user message is the instructions followed by the whole text,
      delimited: the text can be read back from it untruncated. Each answer
      is the model's reply (or the error text) followed by a blank line. */
  lemma GenerateShape(instructions: string, configured: bool, text: string,
                      chat: ChatRequest -> Result<string, string>)
    ensures var user := Prompt(instructions, text)[1].content;
      && StartsWith(user, instructions)
      && Undelimited(user[|instructions|..]) == Some(text)
    ensures var r := Generate(instructions, configured, text, chat);
      var reply := chat(ChatRequest(ModelName, Prompt(instructions, text)));
      && EndsWith(r, "\n\n")
      && (configured && reply.Success? ==> r == reply.value + "\n\n")
      && (configured && reply.Failure? ==> r == LlmErrorPrefix + reply.error + "\n\n")
      && (!configured ==> r == NotConfigured + "\n\n")
  {
    var user := instructions + DocumentDelimited(text);
    assert user[|instructions|..] == DocumentDelimited(text);
    UndelimitedDelimited(text);
  }

  // ---------------------------------------------------------------------
  // process_pdf
  // ---------------------------------------------------------------------

  /** `PDFDocument(filename, content, summary)`. */
  datatype PdfDocument = PdfDocument(filename: string, content: string, summary: string)

  /** The line break and indentation inside `process_pdf`'s f-string. */
  const SummaryIndent := "\n        "

  /** The summary f-string around the three answers. */
  function SummaryOf(name: string, description: string, locations: string): string {
    SummaryIndent + "Name:" + SummaryIndent + name
    + SummaryIndent + "Description:" + SummaryIndent + description
    + SummaryIndent + "Locations:" + SummaryIndent + locations
    + SummaryIndent
  }

  /** `process_pdf(file_path)`: the base name, the text `read_pdf` gives, and
      the summary of the three answers about that text. */
  function ProcessPdfOf(path: string, reader: Result<seq<PageText>, string>, configured: bool,
                        chat: ChatRequest -> Result<string, string>): PdfDocument
  {
    var content := ReadPdfOf(reader);
    PdfDocument(Basename(path), content,
      SummaryOf(GenerateDefectName(configured, content, chat),
                GenerateDefectDescription(configured, content, chat),
                GenerateDefectLocations(configured, content, chat)))
  }

  lemma OccursInMiddle(x: string, t: string, y: string)
    ensures OccursAt(x + t + y, t, |x|)
  {
    assert (x + t + y)[|x|..|x| + |t|] == t;
  }

  /** The headings come in the order Name, Description, Locations, each
      followed on its next line by its answer. */
  lemma SummarySections(name: string, description: string, locations: string)
    ensures var s := SummaryOf(name, description, locations);
      var i := |SummaryIndent|;
      var j := i + |"Name:"| + |SummaryIndent| + |name| + |SummaryIndent|;
      var k := j + |"Description:"| + |SummaryIndent| + |description| + |SummaryIndent|;
      && i < j < k
      && OccursAt(s, "Name:", i)
      && OccursAt(s, name, i + |"Name:"| + |SummaryIndent|)
      && OccursAt(s, "Description:", j)
      && OccursAt(s, description, j + |"Description:"| + |SummaryIndent|)
      && OccursAt(s, "Locations:", k)
      && OccursAt(s, locations, k + |"Locations:"| + |SummaryIndent|)
  {
    HeadedLayout(SummaryIndent, "Name:", name, "Description:", description, "Locations:", locations);
  }

  /** Three headings and their answers, each piece preceded by `sep` and
      the whole closed by `sep`: every piece sits right where the lengths of
      the pieces before it say. */
  lemma HeadedLayout(sep: string, h1: string, v1: string, h2: string, v2: string, h3: string, v3: string)
    requires |h1| > 0 && |h2| > 0
    ensures var s := sep + h1 + sep + v1 + sep + h2 + sep + v2 + sep + h3 + sep + v3 + sep;
      var i := |sep|;
      var j := i + |h1| + |sep| + |v1| + |sep|;
      var k := j + |h2| + |sep| + |v2| + |sep|;
      && i < j < k
      && OccursAt(s, h1, i)
      && OccursAt(s, v1, i + |h1| + |sep|)
      && OccursAt(s, h2, j)
      && OccursAt(s, v2, j + |h2| + |sep|)
      && OccursAt(s, h3, k)
      && OccursAt(s, v3, k + |h3| + |sep|)
  {
    var p1 := sep;
    var p2 := p1 + h1 + sep;
    var p3 := p2 + v1 + sep;
    var p4 := p3 + h2 + sep;
    var p5 := p4 + v2 + sep;
    var p6 := p5 + h3 + sep;
    OccursInMiddle(p1, h1, sep + v1 + sep + h2 + sep + v2 + sep + h3 + sep + v3 + sep);
    OccursInMiddle(p2, v1, sep + h2 + sep + v2 + sep + h3 + sep + v3 + sep);
    OccursInMiddle(p3, h2, sep + v2 + sep + h3 + sep + v3 + sep);
    OccursInMiddle(p4, v2, sep + h3 + sep + v3 + sep);
    OccursInMiddle(p5, h3, sep + v3 + sep);
    OccursInMiddle(p6, v3, sep);
  }

  /** The document is named by the base name of its path and holds what
      `read_pdf` gave (never blank); its summary carries the name,
      description and locations answers about that very text, in that
      order. */
  lemma ProcessPdfShape(path: string, reader: Result<seq<PageText>, string>, configured: bool,
                        chat: ChatRequest -> Result<string, string>)
    ensures var doc := ProcessPdfOf(path, reader, configured, chat);
      && doc.filename == Basename(path)
      && doc.content == ReadPdfOf(reader)
      && PyStrip(doc.content) != ""
      && doc.summary == SummaryOf(GenerateDefectName(configured, doc.content, chat),
                                  GenerateDefectDescription(configured, doc.content, chat),
                                  GenerateDefectLocations(configured, doc.content, chat))
  {
    ReadPdfNeverBlank(reader);
  }
}
