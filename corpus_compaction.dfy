/** The compaction step of the main agent's `summarize_combined_data`: every
    document of the in-memory corpus (keyed `<type>_<name>`) becomes a small
    record with its type, its name, whitelisted metadata, the page count and a
    text sample; the corpus gets a document count and per-type counts. The
    language-model call that follows is an oracle. */
module CorpusCompaction {
  import opened Wrappers
  import opened Strings
  import Seqs
  import Dicts
  import opened Json

  predicate IsUnderscore(c: char) {
    c == '_'
  }

  /** `key.split('_')[0]`. */
  function TypeOf(key: string): string {
    SplitOn(key, IsUnderscore)[0]
  }

  /** `key.split('_', 1)[1] if '_' in key else key`. */
  function NameOf(key: string): string {
    if '_' in key then key[IndexOf(key, '_') + 1..] else key
  }

  /** A key with an underscore is its type, `_` and its name, the type holding
      no underscore; a key without one is both its type and its name. */
  lemma KeyParts(key: string)
    ensures '_' in key ==> key == TypeOf(key) + "_" + NameOf(key) && '_' !in TypeOf(key)
    ensures '_' !in key ==> TypeOf(key) == key && NameOf(key) == key
  {
    SplitFirstPiece(key, '_', IsUnderscore);
    if '_' in key {
      var k := IndexOf(key, '_');
      assert key == key[..k] + [key[k]] + key[k + 1..];
    }
  }

  /** For a type `t` without underscores, the prefix test `key.startswith(t + '_')`
      holds exactly when the key has an underscore and its type is `t`. */
  lemma PrefixIsType(key: string, t: string)
    requires '_' !in t
    ensures StartsWith(key, t + "_") <==> '_' in key && TypeOf(key) == t
  {
    assert TypeOf(key) == if '_' in key then key[..IndexOf(key, '_')] else key by {
      SplitFirstPiece(key, '_', IsUnderscore);
    }
    var p := t + "_";
    if StartsWith(key, p) {
      assert key[..|t|] == t && key[|t|] == '_' by {
        assert key[..|p|] == p;
      }
      IndexIsFirst(key, '_', |t|);
    }
    if '_' in key && TypeOf(key) == t {
      var k := IndexOf(key, '_');
      assert key[..k + 1] == key[..k] + [key[k]];
    }
  }

  const PdfMetadataKeys: seq<string> := ["title", "author", "subject", "creator", "producer"]
  const WordMetadataKeys: seq<string> := ["title", "author", "comments", "category"]

  /** The metadata dict comprehension: the entries whose key is allowed, in order. */
  function Whitelisted(meta: Dicts.Dict<string, Json>, allowed: seq<string>): Dicts.Dict<string, Json> {
    Seqs.Filter(meta, (e: (string, Json)) => e.0 in allowed)
  }

  /** An entry is retained exactly when it is in the metadata with an allowed key. */
  lemma WhitelistedEntries(meta: Dicts.Dict<string, Json>, allowed: seq<string>, e: (string, Json))
    ensures e in Whitelisted(meta, allowed) <==> e in meta && e.0 in allowed
  {
    Seqs.FilterMembership(meta, (e: (string, Json)) => e.0 in allowed, e);
  }

  const SampleLength: nat := 1000

  /** `text[:1000] + "..."`. */
  function Sample(text: string): string {
    (if |text| <= SampleLength then text else text[..SampleLength]) + "..."
  }

  /** The sample is at most 1003 characters, ends in "...", and what precedes
      that is the text itself when short, else its first 1000 characters. */
  lemma SampleShape(text: string)
    ensures |Sample(text)| <= SampleLength + 3
    ensures EndsWith(Sample(text), "...")
    ensures var body := Sample(text)[..|Sample(text)| - 3];
      StartsWith(text, body) && |body| == if |text| <= SampleLength then |text| else SampleLength
  {
    var s := Sample(text);
    assert s[|s| - 3..] == "...";
    assert s[..|s| - 3] == if |text| <= SampleLength then text else text[..SampleLength];
  }

  /** The compact record of one document (`doc_summary`). */
  datatype DocSummary = DocSummary(
    docType: string,
    name: string,
    metadata: Option<Dicts.Dict<string, Json>>,
    pageCount: Option<Json>,
    textSample: Option<string>)

  /** The text sample of a document record: present only for a string `text`. */
  function SampleOf(fields: Dicts.Dict<string, Json>): Option<string> {
    match Dicts.Get<string, Json>(fields, "text")
    case Some(JStr(t)) => Some(Sample(t))
    case _ => None
  }

  /** The record for one corpus entry, or the Python type name of a `metadata`
      value that has no `.items()`. */
  function DocSummaryOf(key: string, doc: Json): Result<DocSummary, string> {
    var base := DocSummary(TypeOf(key), NameOf(key), None, None, None);
    if doc.JObj? && (TypeOf(key) == "pdf" || TypeOf(key) == "word") then
      var allowed := if TypeOf(key) == "pdf" then PdfMetadataKeys else WordMetadataKeys;
      var meta := Dicts.Get<string, Json>(doc.fields, "metadata");
      if meta.Some? && !meta.value.JObj? then Failure(PyTypeName(meta.value))
      else
        Success(base.(
          metadata := if meta.Some? then Some(Whitelisted(meta.value.fields, allowed)) else None,
          pageCount := if TypeOf(key) == "pdf" then Dicts.Get<string, Json>(doc.fields, "page_count") else None,
          textSample := SampleOf(doc.fields)))
    else Success(base)
  }

  /** What a record holds: its type and name always; metadata only from the
      type's whitelist; a page count only for a pdf; for a type other than pdf
      and word, or a document that is not a dict, nothing else. */
  lemma DocSummaryFields(key: string, doc: Json)
    requires DocSummaryOf(key, doc).Success?
    ensures var ds := DocSummaryOf(key, doc).value;
      && ds.docType == TypeOf(key) && ds.name == NameOf(key)
      && (ds.pageCount.Some? ==>
            (ds.docType == "pdf" && doc.JObj?
             && Dicts.Get<string, Json>(doc.fields, "page_count") == ds.pageCount))
      && (ds.textSample.Some? <==>
            ((ds.docType == "pdf" || ds.docType == "word") && doc.JObj?
             && Dicts.Get<string, Json>(doc.fields, "text").Some?
             && Dicts.Get<string, Json>(doc.fields, "text").value.JStr?))
      && (ds.metadata.Some? ==>
            ((ds.docType == "pdf" || ds.docType == "word") && doc.JObj?
             && forall e :: e in ds.metadata.value ==>
                  e.0 in (if ds.docType == "pdf" then PdfMetadataKeys else WordMetadataKeys)))
  {
    var ds := DocSummaryOf(key, doc).value;
    if ds.metadata.Some? {
      var meta := Dicts.Get<string, Json>(doc.fields, "metadata").value;
      var allowed := if ds.docType == "pdf" then PdfMetadataKeys else WordMetadataKeys;
      forall e | e in ds.metadata.value ensures e.0 in allowed {
        WhitelistedEntries(meta.fields, allowed, e);
      }
    }
  }

  /** Builds one `doc_summary`, filling its fields one by one. */
  method SummarizeDocument(key: string, doc: Json) returns (r: Result<DocSummary, string>)
    ensures r == DocSummaryOf(key, doc)
  {
    var docType := TypeOf(key);
    var ds := DocSummary(docType, NameOf(key), None, None, None);
    if doc.JObj? && (docType == "pdf" || docType == "word") {
      var allowed := if docType == "pdf" then PdfMetadataKeys else WordMetadataKeys;
      var meta := Dicts.Get<string, Json>(doc.fields, "metadata");
      if meta.Some? {
        if !meta.value.JObj? {
          return Failure(PyTypeName(meta.value));
        }
        ds := ds.(metadata := Some(Whitelisted(meta.value.fields, allowed)));
      }
      if docType == "pdf" {
        var pages := Dicts.Get<string, Json>(doc.fields, "page_count");
        if pages.Some? {
          ds := ds.(pageCount := pages);
        }
      }
      var text := Dicts.Get<string, Json>(doc.fields, "text");
      if text.Some? && text.value.JStr? {
        ds := ds.(textSample := Some(Sample(text.value.s)));
      }
    }
    r := Success(ds);
  }

  /** `document_summary` after the loop over the corpus, or the error of the
      first document whose record cannot be built. */
  function CompactAll(corpus: Dicts.Dict<string, Json>): Result<Dicts.Dict<string, DocSummary>, string>
    decreases |corpus|
  {
    if corpus == [] then Success([])
    else
      var (key, doc) := corpus[|corpus| - 1];
      match CompactAll(corpus[..|corpus| - 1])
      case Failure(e) => Failure(e)
      case Success(docs) =>
        match DocSummaryOf(key, doc)
        case Failure(e) => Failure(e)
        case Success(ds) => Success(Dicts.Put<string, DocSummary>(docs, key, ds))
  }

  /** The loop of `summarize_combined_data` filling `document_summary`. */
  method CompactDocuments(corpus: Dicts.Dict<string, Json>)
    returns (r: Result<Dicts.Dict<string, DocSummary>, string>)
    ensures r == CompactAll(corpus)
  {
    var docs: Dicts.Dict<string, DocSummary> := [];
    var i := 0;
    while i < |corpus|
      invariant 0 <= i <= |corpus|
      invariant CompactAll(corpus[..i]) == Success(docs)
    {
      var (key, doc) := corpus[i];
      assert corpus[..i + 1][..i] == corpus[..i];
      var ds := SummarizeDocument(key, doc);
      if ds.Failure? {
        FailureSticks(corpus, i + 1);
        return Failure(ds.error);
      }
      docs := Dicts.Put<string, DocSummary>(docs, key, ds.value);
      i := i + 1;
    }
    assert corpus[..i] == corpus;
    r := Success(docs);
  }

  /** Once a prefix of the corpus fails, the whole corpus fails the same way. */
  lemma {:induction false} FailureSticks(corpus: Dicts.Dict<string, Json>, n: nat)
    requires n <= |corpus| && CompactAll(corpus[..n]).Failure?
    ensures CompactAll(corpus) == CompactAll(corpus[..n])
    decreases |corpus| - n
  {
    if n == |corpus| {
      assert corpus[..n] == corpus;
    } else {
      assert corpus[..n + 1][..n] == corpus[..n];
      FailureSticks(corpus, n + 1);
    }
  }

  /** With the distinct keys of a Python dict, `document_summary` has one entry
      per corpus key, in corpus order, holding that document's record. */
  lemma {:induction false} CompactEntries(corpus: Dicts.Dict<string, Json>)
    requires Dicts.DistinctKeys(corpus) && CompactAll(corpus).Success?
    ensures var docs := CompactAll(corpus).value;
      && |docs| == |corpus|
      && forall i :: 0 <= i < |docs| ==>
           docs[i].0 == corpus[i].0 && Summarizes(corpus[i].0, corpus[i].1, docs[i].1)
    decreases |corpus|
  {
    if corpus != [] {
      var n := |corpus| - 1;
      var init := corpus[..n];
      var (key, doc) := corpus[n];
      assert CompactAll(init).Success? && DocSummaryOf(key, doc).Success?;
      var docs := CompactAll(init).value;
      var ds := DocSummaryOf(key, doc).value;
      Dicts.DistinctKeysPrefix(corpus, n);
      CompactEntries(init);
      Dicts.LastKeyFresh(corpus, docs);
      assert CompactAll(corpus) == Success(docs + [(key, ds)]);
      Dicts.PairedSnoc(corpus, docs, ds, Summarizes);
    }
  }

  /** `ds` is the record built for document `doc` under `key`. */
  predicate Summarizes(key: string, doc: Json, ds: DocSummary) {
    DocSummaryOf(key, doc) == Success(ds)
  }

  /** `sum(1 for k in combined_data.keys() if k.startswith(prefix))`. */
  function CountPrefix(keys: seq<string>, prefix: string): (r: nat)
    ensures r <= |keys|
  {
    |Seqs.Filter(keys, (k: string) => StartsWith(k, prefix))|
  }

  /** The pdf (word) count is the number of keys with an underscore whose type
      is pdf (word): a key without an underscore is never counted. */
  lemma CountIsTypeCount(keys: seq<string>, t: string)
    requires t == "pdf" || t == "word"
    ensures CountPrefix(keys, t + "_")
         == |Seqs.Filter(keys, (k: string) => '_' in k && TypeOf(k) == t)|
  {
    forall i | 0 <= i < |keys|
      ensures StartsWith(keys[i], t + "_") == ('_' in keys[i] && TypeOf(keys[i]) == t)
    {
      PrefixIsType(keys[i], t);
    }
    Seqs.FilterSame(keys, (k: string) => StartsWith(k, t + "_"), (k: string) => '_' in k && TypeOf(k) == t);
  }

  /** `compact_data`. */
  datatype CompactData = CompactData(
    documentCount: nat,
    pdfCount: nat,
    wordCount: nat,
    documents: Dicts.Dict<string, DocSummary>)

  const NoCombinedDataMessage := "No combined data found. Please scan documents first."

  /** The route's JSON answer and status. */
  datatype Response =
    | Summarized(summary: string, documentCount: nat)
    | Error(status: nat, message: string)

  /** `str(e)` of the AttributeError raised by `.items()` on a non-dict. */
  function NoItemsMessage(typeName: string): string {
    "'" + typeName + "' object has no attribute 'items'"
  }

  /** `summarize_combined_data` with the model's answer (given the compact data
      as its JSON text) as the oracle `llm`. */
  function SummarizeCombined(corpus: Dicts.Dict<string, Json>, llm: CompactData -> string): Response {
    if corpus == [] then Error(404, NoCombinedDataMessage)
    else
      match CompactAll(corpus)
      case Failure(t) => Error(500, "Error generating summary: " + NoItemsMessage(t))
      case Success(docs) =>
        var keys := Dicts.Keys(corpus);
        var data := CompactData(|corpus|, CountPrefix(keys, "pdf_"), CountPrefix(keys, "word_"), docs);
        Summarized(PyStrip(llm(data)), |corpus|)
  }

  /** `summarize_combined_data`, with the document loop run by `CompactDocuments`. */
  method SummarizeCombinedData(corpus: Dicts.Dict<string, Json>, llm: CompactData -> string)
    returns (r: Response)
    ensures r == SummarizeCombined(corpus, llm)
  {
    if corpus == [] {
      return Error(404, NoCombinedDataMessage);
    }
    var docs := CompactDocuments(corpus);
    if docs.Failure? {
      return Error(500, "Error generating summary: " + NoItemsMessage(docs.error));
    }
    var keys := Dicts.Keys(corpus);
    var data := CompactData(|corpus|, CountPrefix(keys, "pdf_"), CountPrefix(keys, "word_"), docs.value);
    r := Summarized(PyStrip(llm(data)), |corpus|);
  }

  /** The corpus is empty exactly when the route answers 404, and then the
      model is never asked; a successful answer reports the number of keys. */
  lemma EmptyCorpusIff(corpus: Dicts.Dict<string, Json>, llm: CompactData -> string)
    ensures SummarizeCombined(corpus, llm) == Error(404, NoCombinedDataMessage) <==> corpus == []
    ensures SummarizeCombined(corpus, llm).Summarized? ==> SummarizeCombined(corpus, llm).documentCount == |corpus|
  {
    if corpus != [] && CompactAll(corpus).Failure? {
      var t := CompactAll(corpus).error;
      assert SummarizeCombined(corpus, llm).message[..25] == "Error generating summary:";
    }
  }
}
