/** The C# extractive summarizer (`PdfSummarizer.SummarizeTextAsync`): split the
    text at sentence terminators, keep the trimmed pieces longer than 20
    UTF-16 code units, and emit the first, a middle and the last of them, one per line. */
module SentenceSummarizer {
  import opened Wrappers
  import opened Strings
  import Seqs

  const NoTextMessage: string := "No text to summarize."

  /** Pieces must be strictly longer than this to count as sentences. */
  const MinSentenceLength: nat := 20

  predicate IsTerminator(c: char) {
    c == '.' || c == '!' || c == '?'
  }

  predicate IsNonEmpty(s: string) {
    s != ""
  }

  /** `s.Length > 20`: C# counts UTF-16 code units, so a character above
      U+FFFF counts twice. */
  predicate IsLong(s: string) {
    Utf16Length(s) > MinSentenceLength
  }

  /** For text in the Basic Multilingual Plane the threshold is 20
      characters; for text made only of characters above U+FFFF (emoji, say)
      it is 10 characters, since each is a surrogate pair. */
  lemma LongThreshold(s: string)
    ensures (forall i :: 0 <= i < |s| ==> s[i] as int <= 0xFFFF) ==> (IsLong(s) <==> |s| > 20)
    ensures (forall i :: 0 <= i < |s| ==> s[i] as int > 0xFFFF) ==> (IsLong(s) <==> |s| > 10)
  {
    Utf16LengthBounds(s);
    if forall i :: 0 <= i < |s| ==> s[i] as int > 0xFFFF {
      Utf16LengthAstral(s);
    }
  }

  /** The non-empty pieces between terminators (`Split` with `RemoveEmptyEntries`). */
  function Pieces(text: string): seq<string> {
    Seqs.Filter(SplitOn(text, IsTerminator), IsNonEmpty)
  }

  /** `Select(s => s.Trim())`. */
  function TrimAll(pieces: seq<string>): (r: seq<string>)
    ensures |r| == |pieces|
    ensures forall i :: 0 <= i < |pieces| ==> r[i] == DotNetTrim(pieces[i])
  {
    seq(|pieces|, i requires 0 <= i < |pieces| => DotNetTrim(pieces[i]))
  }

  /** `text.Split(terminators, RemoveEmptyEntries).Select(Trim).Where(Length > 20)`. */
  function Sentences(text: string): seq<string> {
    Seqs.Filter(TrimAll(Pieces(text)), IsLong)
  }

  /** A cleaned-up sentence: no terminator inside and no white space at
      either end. */
  predicate IsClean(s: string) {
    && (forall j :: 0 <= j < |s| ==> !IsTerminator(s[j]))
    && (s != [] ==> !IsDotNetSpace(s[0]) && !IsDotNetSpace(s[|s| - 1]))
  }

  /** Every sentence is longer than 20 UTF-16 code units, is clean, and is the
      trimmed form of a piece between terminators. */
  lemma SentencesAreTrimmedPieces(text: string, s: string)
    requires s in Sentences(text)
    ensures Utf16Length(s) > MinSentenceLength && IsClean(s)
    ensures exists p :: p in SplitOn(text, IsTerminator) && s == DotNetTrim(p)
  {
    var pieces := Pieces(text);
    var trimmed := TrimAll(pieces);
    Seqs.FilterMembership(trimmed, IsLong, s);
    var i :| 0 <= i < |trimmed| && trimmed[i] == s;
    var p := pieces[i];
    Seqs.FilterMembership(SplitOn(text, IsTerminator), IsNonEmpty, p);
    SplitPiecesHaveNoSep(text, IsTerminator, p);
    TrimmedPieceIsClean(p);
  }

  lemma TrimmedPieceIsClean(p: string)
    requires forall j :: 0 <= j < |p| ==> !IsTerminator(p[j])
    ensures IsClean(DotNetTrim(p))
  {
    TrimKeepsAbsent(p, IsDotNetSpace, IsTerminator);
    TrimIsSlice(p, IsDotNetSpace);
  }

  /** Conversely, every piece whose trimmed form is longer than 20 UTF-16 code units
      contributes that trimmed form. */
  lemma LongPiecesAreSentences(text: string, p: string)
    requires p in SplitOn(text, IsTerminator) && Utf16Length(DotNetTrim(p)) > MinSentenceLength
    ensures DotNetTrim(p) in Sentences(text)
  {
    var pieces := Pieces(text);
    Seqs.FilterMembership(SplitOn(text, IsTerminator), IsNonEmpty, p);
    var i :| 0 <= i < |pieces| && pieces[i] == p;
    var t := TrimAll(pieces);
    assert t[i] == DotNetTrim(p);
    Seqs.FilterMembership(t, IsLong, DotNetTrim(p));
  }

  /** Positions of the sentences that make the summary: the first; the middle
      one (integer division) when there are more than two; the last when there
      are more than one. */
  function PickedPositions(n: nat): seq<nat> {
    (if n > 0 then [0] else []) + (if n > 2 then [n / 2] else []) + (if n > 1 then [n - 1] else [])
  }

  /** min(n, 3) positions, strictly increasing and in range, beginning with the
      first sentence and ending with the last. */
  lemma PickedPositionsShape(n: nat)
    ensures var ps := PickedPositions(n);
      && |ps| == (if n < 3 then n else 3)
      && (forall i, j :: 0 <= i < j < |ps| ==> ps[i] < ps[j])
      && (forall i :: 0 <= i < |ps| ==> ps[i] < n)
      && (n > 0 ==> ps[0] == 0 && ps[|ps| - 1] == n - 1)
      && (n > 2 ==> ps[1] == n / 2)
  {
  }

  /** Each line followed by "." and the line terminator (`AppendLine`). */
  function Render(lines: seq<string>, newline: string): string
    decreases |lines|
  {
    if lines == [] then ""
    else Render(lines[..|lines| - 1], newline) + (lines[|lines| - 1] + ".") + newline
  }

  /** The lines a summary is made of, in order. */
  function SummaryLines(sentences: seq<string>): seq<string> {
    var n := |sentences|;
    (if n > 0 then [sentences[0]] else [])
      + (if n > 2 then [sentences[n / 2]] else [])
      + (if n > 1 then [sentences[n - 1]] else [])
  }

  /** The summary lines are the sentences at the picked positions, so there are
      min(n, 3) of them, in document order. */
  lemma SummaryLinesArePicked(sentences: seq<string>)
    ensures |SummaryLines(sentences)| == |PickedPositions(|sentences|)|
    ensures forall i :: 0 <= i < |SummaryLines(sentences)| ==>
      SummaryLines(sentences)[i] == sentences[PickedPositions(|sentences|)[i]]
  {
  }

  /** What `SummarizeTextAsync` returns, with `None` standing for a null string
      and `newline` for `Environment.NewLine`. */
  function Summary(text: Option<string>, newline: string): string {
    if text.None? || text.value == "" then NoTextMessage
    else Render(SummaryLines(Sentences(text.value)), newline)
  }

  method SummarizeText(text: Option<string>, newline: string) returns (summary: string)
    ensures summary == Summary(text, newline)
  {
    if text.None? || text.value == "" {
      return NoTextMessage;
    }
    var sentences := Sentences(text.value);
    summary := AppendSummaryLines(sentences, newline);
  }

  /** The `StringBuilder` part of `SummarizeTextAsync`: one `AppendLine` per
      picked sentence. */
  method AppendSummaryLines(sentences: seq<string>, newline: string) returns (summary: string)
    ensures summary == Render(SummaryLines(sentences), newline)
  {
    var n := |sentences|;
    ghost var first := if n > 0 then [sentences[0]] else [];
    ghost var middle := if n > 2 then [sentences[n / 2]] else [];
    ghost var last := if n > 1 then [sentences[n - 1]] else [];
    var builder := "";
    if n > 0 {
      builder := AppendLine(builder, sentences[0], newline);
    }
    assert builder == Render(first, newline);
    if n > 2 {
      builder := AppendLine(builder, sentences[n / 2], newline);
    }
    assert builder == Render(first + middle, newline) by {
      RenderConcat(first, middle, newline);
    }
    if n > 1 {
      builder := AppendLine(builder, sentences[n - 1], newline);
    }
    assert builder == Render(first + middle + last, newline) by {
      RenderConcat(first + middle, last, newline);
    }
    summary := builder;
  }

  /** One `AppendLine`: the line, a full stop and the line terminator. */
  method AppendLine(builder: string, line: string, newline: string) returns (r: string)
    ensures r == builder + Render([line], newline)
  {
    RenderAtMostOne([line], newline);
    r := builder + (line + ".") + newline;
  }

  lemma RenderAtMostOne(lines: seq<string>, newline: string)
    requires |lines| <= 1
    ensures Render(lines, newline) == if lines == [] then "" else (lines[0] + ".") + newline
  {
    if lines != [] {
      assert lines[..0] == [];
    }
  }

  /** Rendering is compositional: the lines of `a + b` render as `a`'s lines
      followed by `b`'s. */
  lemma {:induction false} RenderConcat(a: seq<string>, b: seq<string>, newline: string)
    ensures Render(a + b, newline) == Render(a, newline) + Render(b, newline)
    decreases |b|
  {
    if b == [] {
      assert a + b == a;
    } else {
      var b' := b[..|b| - 1];
      RenderConcat(a, b', newline);
      assert (a + b)[..|a + b| - 1] == a + b';
      assert (a + b)[|a + b| - 1] == b[|b| - 1];
    }
  }

  lemma {:induction false} RenderStartsWith(lines: seq<string>, newline: string)
    requires lines != []
    ensures StartsWith(Render(lines, newline), lines[0] + "." + newline)
    decreases |lines|
  {
    if |lines| > 1 {
      RenderStartsWith(lines[..|lines| - 1], newline);
    }
  }

  /** Rendered summary lines start with the first sentence and end with the
      last one, or are empty when there is no sentence. */
  lemma RenderedSummaryEnds(all: seq<string>, newline: string)
    ensures var r := Render(SummaryLines(all), newline);
      && (all == [] ==> r == "")
      && (all != [] ==>
            StartsWith(r, all[0] + "." + newline) && EndsWith(r, all[|all| - 1] + "." + newline))
  {
    var lines := SummaryLines(all);
    if all != [] {
      SummaryLinesArePicked(all);
      PickedPositionsShape(|all|);
      RenderStartsWith(lines, newline);
      var r := Render(lines, newline);
      var tail := all[|all| - 1] + "." + newline;
      assert r == Render(lines[..|lines| - 1], newline) + tail;
      assert r[|r| - |tail|..] == tail;
    }
  }

  /** A non-empty text yields the empty string, not the "No text" message,
      when no piece is long enough; otherwise its first line is the first
      sentence and its last line the last sentence, each followed by ".". */
  lemma SummaryFirstAndLast(text: string, newline: string)
    requires text != ""
    ensures var all := Sentences(text); var r := Summary(Some(text), newline);
      && (all == [] ==> r == "" && r != NoTextMessage)
      && (all != [] ==>
            StartsWith(r, all[0] + "." + newline) && EndsWith(r, all[|all| - 1] + "." + newline))
  {
    var all := Sentences(text);
    assert Summary(Some(text), newline) == Render(SummaryLines(all), newline);
    RenderedSummaryEnds(all, newline);
  }

  /** The "No text" message comes back exactly for a null or empty text: any
      other text gives either "" or lines that start with a sentence. */
  lemma NoTextMessageIff(text: Option<string>, newline: string)
    ensures Summary(text, newline) == NoTextMessage <==> text.None? || text.value == ""
  {
    if text.Some? && text.value != "" {
      var all := Sentences(text.value);
      SummaryFirstAndLast(text.value, newline);
      if all != [] {
        SentencesAreTrimmedPieces(text.value, all[0]);
        NotTheMessage(all[0], Summary(text, newline), newline);
      }
    }
  }

  /** A rendering that starts with a sentence cannot be the "No text" message:
      the message's only full stop follows 20 ASCII characters, which are not
      long enough to be a sentence. */
  lemma NotTheMessage(first: string, r: string, newline: string)
    requires IsLong(first) && IsClean(first)
    requires StartsWith(r, first + "." + newline)
    ensures r != NoTextMessage
  {
    Utf16LengthBounds(first);
    var k := |first|;
    if k < 20 {
      assert r[k] == '.' && first[..] == r[..k];
      assert r != NoTextMessage by {
        assert NoTextMessage[k] != '.';
      }
    } else if k == 20 {
      assert first == r[..20];
      assert r != NoTextMessage by {
        assert "No text to summarize"[..] == NoTextMessage[..20];
        assert forall i :: 0 <= i < 20 ==> NoTextMessage[i] as int <= 0xFFFF;
      }
    } else {
      assert r != NoTextMessage by {
        assert r[20] == first[20];
        assert !IsTerminator(first[20]);
      }
    }
  }

  /** The shape of the project's unit test: three terminated pieces whose
      trimmed forms are long enough give exactly those three trimmed
      sentences, one per line. */
  lemma ThreeSentences(a: string, b: string, c: string, newline: string)
    requires forall i :: 0 <= i < |a| ==> !IsTerminator(a[i])
    requires forall i :: 0 <= i < |b| ==> !IsTerminator(b[i])
    requires forall i :: 0 <= i < |c| ==> !IsTerminator(c[i])
    requires IsLong(DotNetTrim(a)) && IsLong(DotNetTrim(b)) && IsLong(DotNetTrim(c))
    ensures Sentences(a + "." + b + "." + c + ".") == [DotNetTrim(a), DotNetTrim(b), DotNetTrim(c)]
    ensures Summary(Some(a + "." + b + "." + c + "."), newline)
         == Render([DotNetTrim(a), DotNetTrim(b), DotNetTrim(c)], newline)
  {
    ThreePieces(a, b, c);
    var ta, tb, tc := DotNetTrim(a), DotNetTrim(b), DotNetTrim(c);
    TrimAllThree(a, b, c);
    LongThree(ta, tb, tc);
    SummaryLinesOfThree(ta, tb, tc);
  }

  lemma TrimAllThree(a: string, b: string, c: string)
    ensures TrimAll([a, b, c]) == [DotNetTrim(a), DotNetTrim(b), DotNetTrim(c)]
  {
  }

  lemma LongThree(x: string, y: string, z: string)
    requires IsLong(x) && IsLong(y) && IsLong(z)
    ensures Seqs.Filter([x, y, z], IsLong) == [x, y, z]
  {
    Seqs.FilterAll([x, y, z], IsLong);
  }

  lemma SummaryLinesOfThree(x: string, y: string, z: string)
    ensures SummaryLines([x, y, z]) == [x, y, z]
  {
  }

  lemma ThreePieces(a: string, b: string, c: string)
    requires forall i :: 0 <= i < |a| ==> !IsTerminator(a[i])
    requires forall i :: 0 <= i < |b| ==> !IsTerminator(b[i])
    requires forall i :: 0 <= i < |c| ==> !IsTerminator(c[i])
    requires a != "" && b != "" && c != ""
    ensures Pieces(a + "." + b + "." + c + ".") == [a, b, c]
  {
    var ab := a + "." + b;
    var abc := ab + "." + c;
    SplitNoSep(a, IsTerminator);
    SplitThenPiece(a, '.', b, IsTerminator);
    assert SplitOn(ab, IsTerminator) == [a, b];
    SplitThenPiece(ab, '.', c, IsTerminator);
    assert SplitOn(abc, IsTerminator) == [a, b, c];
    SplitSnoc(abc, '.', IsTerminator);
    assert SplitOn(abc + ".", IsTerminator) == [a, b, c, ""];
    NonEmptyThree(a, b, c);
  }

  lemma NonEmptyThree(a: string, b: string, c: string)
    requires a != "" && b != "" && c != ""
    ensures Seqs.Filter([a, b, c, ""], IsNonEmpty) == [a, b, c]
  {
    var s := [a, b, c];
    assert forall i :: 0 <= i < |s| ==> IsNonEmpty(s[i]);
    Seqs.FilterAll(s, IsNonEmpty);
    Seqs.FilterSnoc(s, "", IsNonEmpty);
    assert s + [""] == [a, b, c, ""];
  }

  /** Every line occurs in the rendered text. */
  lemma {:induction false} RenderContainsLines(lines: seq<string>, newline: string, i: nat)
    requires i < |lines|
    ensures Contains(Render(lines, newline), lines[i])
    decreases |lines|
  {
    var init := lines[..|lines| - 1];
    var last := lines[|lines| - 1];
    if i == |lines| - 1 {
      ContainsMiddle(Render(init, newline), last, "." + newline);
      assert Render(init, newline) + last + ("." + newline) == Render(lines, newline);
    } else {
      RenderContainsLines(init, newline, i);
      ContainsExtend(Render(init, newline), lines[i], (last + ".") + newline);
      assert Render(init, newline) + ((last + ".") + newline) == Render(lines, newline);
    }
  }

  /** The text of the project's unit test (written as a concatenation of
      literals): its summary contains the first and the last sentence. */
  lemma UnitTestText(newline: string)
    ensures var text := "This is the first sentence" + "."
        + (" This is a middle sentence" + " with enough characters") + "."
        + (" This is the last sentence" + " in the document") + ".";
      var r := Summary(Some(text), newline);
      Contains(r, "This is the first sentence") && Contains(r, "This is the last sentence")
  {
    var a := "This is the first sentence";
    var b1, b2 := " This is a middle sentence", " with enough characters";
    var c1, c2 := " This is the last sentence", " in the document";
    LiteralsTerminatorFree();
    FirstSentenceTrim();
    LeadingSpaceTrim(b1, b2);
    LeadingSpaceTrim(c1, c2);
    assert c1[1..] == "This is the last sentence";
    FirstAndLastOfThree(a, b1 + b2, c1 + c2, "This is the last sentence", newline);
  }

  /** Three terminated pieces, long enough once trimmed, the first already
      trimmed: the summary contains the first piece and any start of the
      trimmed last piece. */
  lemma FirstAndLastOfThree(a: string, b: string, c: string, last: string, newline: string)
    requires TerminatorFree(a) && TerminatorFree(b) && TerminatorFree(c)
    requires DotNetTrim(a) == a && StartsWith(DotNetTrim(c), last)
    requires |a| > MinSentenceLength && |DotNetTrim(b)| > MinSentenceLength && |DotNetTrim(c)| > MinSentenceLength
    ensures var r := Summary(Some(a + "." + b + "." + c + "."), newline);
      Contains(r, a) && Contains(r, last)
  {
    var tb, tc := DotNetTrim(b), DotNetTrim(c);
    LongByLength(a);
    LongByLength(tb);
    LongByLength(tc);
    ThreeSentences(a, b, c, newline);
    var lines := [a, tb, tc];
    RenderContainsLines(lines, newline, 0);
    RenderContainsLines(lines, newline, 2);
    ContainsPrefixOf(Render(lines, newline), tc, last);
  }

  lemma LongByLength(s: string)
    requires |s| > MinSentenceLength
    ensures IsLong(s)
  {
    Utf16LengthBounds(s);
  }

  /** The literal facts the unit-test text needs. */
  lemma LiteralsTerminatorFree()
    ensures TerminatorFree("This is the first sentence")
    ensures TerminatorFree(" This is a middle sentence" + " with enough characters")
    ensures TerminatorFree(" This is the last sentence" + " in the document")
  {
    TerminatorFreeAppend(" This is a middle sentence", " with enough characters");
    TerminatorFreeAppend(" This is the last sentence", " in the document");
  }

  lemma TerminatorFreeAppend(x: string, y: string)
    requires TerminatorFree(x) && TerminatorFree(y)
    ensures TerminatorFree(x + y)
  {
  }

  lemma FirstSentenceTrim()
    ensures DotNetTrim("This is the first sentence") == "This is the first sentence"
  {
  }

  predicate TerminatorFree(s: string) {
    forall i :: 0 <= i < |s| ==> !IsTerminator(s[i])
  }

  /** Trimming a piece that starts with one space before a letter and ends in
      a letter drops just that space. */
  lemma LeadingSpaceTrim(x: string, y: string)
    requires |x| >= 2 && x[0] == ' ' && 'A' <= x[1] <= 'z' && y != [] && 'a' <= y[|y| - 1] <= 'z'
    ensures DotNetTrim(x + y) == x[1..] + y
  {
    var s := x + y;
    assert s[1..] == x[1..] + y;
    assert TrimStart(s[1..], IsDotNetSpace) == s[1..];
    assert TrimStart(s, IsDotNetSpace) == s[1..];
    assert TrimEnd(s[1..], IsDotNetSpace) == s[1..];
  }
}
