/** The Python extractive summarizer (`PdfSummarizer.summarize`): score every
    sentence by the corpus frequencies of its words, keep the best-scoring
    sentences and print them in document order. The NLTK tokenizers, the
    stop-word list and Unicode case mapping are abstract inputs. */
module FrequencySummarizer {
  import opened Wrappers
  import opened Strings
  import Seqs
  import Dicts

  /** The language toolkit the summarizer calls: `sent_tokenize`,
      `word_tokenize`, `str.lower`, the character test behind `str.isalnum`
      and the English stop words. */
  datatype Toolkit = Toolkit(
    sentTokenize: string -> seq<string>,
    wordTokenize: string -> seq<string>,
    lower: string -> string,
    isAlnumChar: char -> bool,
    stopWords: set<string>)

  /** The returned dictionary: `summary`, `word_count`, `original_word_count`. */
  datatype Summary = Summary(summary: string, wordCount: nat, originalWordCount: nat)

  const EmptySummary: Summary := Summary("", 0, 0)

  /** `not text or text.isspace()`. */
  predicate IsBlank(text: string) {
    text == "" || AllIn(text, IsPySpace)
  }

  /** `word.isalnum() and word not in stop_words`. */
  predicate Counted(tk: Toolkit, w: string) {
    w != "" && AllIn(w, tk.isAlnumChar) && w !in tk.stopWords
  }

  /** `filtered_words`: the counted tokens, in order, repeats kept. */
  function CountedWords(tk: Toolkit, words: seq<string>): (r: seq<string>)
    decreases |words|
  {
    if words == [] then []
    else
      var rest := CountedWords(tk, words[..|words| - 1]);
      if Counted(tk, words[|words| - 1]) then rest + [words[|words| - 1]] else rest
  }

  /** Every counted token keeps all of its occurrences; no other token stays. */
  lemma {:induction false} CountedWordsMultiset(tk: Toolkit, words: seq<string>, w: string)
    ensures multiset(CountedWords(tk, words))[w] == if Counted(tk, w) then multiset(words)[w] else 0
    decreases |words|
  {
    if words != [] {
      var init := words[..|words| - 1];
      CountedWordsMultiset(tk, init, w);
      assert words == init + [words[|words| - 1]];
    }
  }

  /** `FreqDist(filtered_words)`: each token to its number of occurrences. */
  function Frequencies(filtered: seq<string>): map<string, nat> {
    map w | w in filtered :: multiset(filtered)[w]
  }

  /** The frequency table holds exactly the counted tokens of the text, each
      with its number of occurrences among all tokens. */
  lemma FrequencyTable(tk: Toolkit, words: seq<string>, w: string)
    ensures var freq := Frequencies(CountedWords(tk, words));
      && (w in freq <==> w in words && Counted(tk, w))
      && (w in freq ==> freq[w] == multiset(words)[w])
  {
    CountedWordsMultiset(tk, words, w);
  }

  /** The score of a token list: the frequencies of its tokens that are in
      the table, summed with repetition. */
  function TokenScore(tokens: seq<string>, freq: map<string, nat>): nat
    decreases |tokens|
  {
    if tokens == [] then 0
    else
      var w := tokens[|tokens| - 1];
      TokenScore(tokens[..|tokens| - 1], freq) + (if w in freq then freq[w] else 0)
  }

  /** Some token of the list is in the table. */
  predicate Hits(tokens: seq<string>, freq: map<string, nat>)
    decreases |tokens|
  {
    tokens != [] && (Hits(tokens[..|tokens| - 1], freq) || tokens[|tokens| - 1] in freq)
  }

  lemma {:induction false} TokenScoreAppend(a: seq<string>, b: seq<string>, freq: map<string, nat>)
    ensures TokenScore(a + b, freq) == TokenScore(a, freq) + TokenScore(b, freq)
    decreases |b|
  {
    if b == [] {
      assert a + b == a;
    } else {
      assert (a + b)[..|a + b| - 1] == a + b[..|b| - 1];
      TokenScoreAppend(a, b[..|b| - 1], freq);
    }
  }

  lemma {:induction false} HitsIff(tokens: seq<string>, freq: map<string, nat>)
    ensures Hits(tokens, freq) <==> exists j :: 0 <= j < |tokens| && tokens[j] in freq
    decreases |tokens|
  {
    if tokens != [] {
      var init := tokens[..|tokens| - 1];
      HitsIff(init, freq);
      assert forall j :: 0 <= j < |init| ==> init[j] == tokens[j];
    }
  }

  /** A token list that hits nothing scores 0. */
  lemma {:induction false} NoHitsNoScore(tokens: seq<string>, freq: map<string, nat>)
    requires !Hits(tokens, freq)
    ensures TokenScore(tokens, freq) == 0
    decreases |tokens|
  {
    if tokens != [] {
      NoHitsNoScore(tokens[..|tokens| - 1], freq);
    }
  }

  /** The tokens of each lower-cased sentence. */
  function SentenceTokens(tk: Toolkit, sentences: seq<string>): (r: seq<seq<string>>)
    ensures |r| == |sentences|
  {
    seq(|sentences|, i requires 0 <= i < |sentences| => tk.wordTokenize(tk.lower(sentences[i])))
  }

  /** The entry sentence `i` adds to `sentence_scores`: none when no token hits. */
  function Entry(i: nat, tokens: seq<string>, freq: map<string, nat>): Dicts.Dict<nat, nat> {
    if Hits(tokens, freq) then [(i, TokenScore(tokens, freq))] else []
  }

  /** `sentence_scores` after the loop, in insertion (= sentence) order. */
  function Scores(toks: seq<seq<string>>, freq: map<string, nat>): Dicts.Dict<nat, nat>
    decreases |toks|
  {
    if toks == [] then []
    else Scores(toks[..|toks| - 1], freq) + Entry(|toks| - 1, toks[|toks| - 1], freq)
  }

  /** Entries whose sentence indices are strictly increasing. */
  predicate IncreasingIdx(d: seq<(nat, nat)>) {
    forall i, j :: 0 <= i < j < |d| ==> d[i].0 < d[j].0
  }

  predicate IndicesBelow(d: seq<(nat, nat)>, n: nat) {
    forall i :: 0 <= i < |d| ==> d[i].0 < n
  }

  lemma {:induction false} ScoresShape(toks: seq<seq<string>>, freq: map<string, nat>)
    ensures IncreasingIdx(Scores(toks, freq)) && IndicesBelow(Scores(toks, freq), |toks|)
    decreases |toks|
  {
    if toks != [] {
      ScoresShape(toks[..|toks| - 1], freq);
    }
  }

  /** Sentence `i` has a score exactly when one of its tokens is in the table,
      and the score is its token score. */
  lemma {:induction false} ScoresLookup(toks: seq<seq<string>>, freq: map<string, nat>, i: nat)
    ensures Dicts.Get<nat, nat>(Scores(toks, freq), i)
         == if i < |toks| && Hits(toks[i], freq) then Some(TokenScore(toks[i], freq)) else None
    decreases |toks|
  {
    if toks != [] {
      var n := |toks| - 1;
      var init := toks[..n];
      ScoresLookup(init, freq, i);
      Dicts.GetAppend<nat, nat>(Scores(init, freq), Entry(n, toks[n], freq), i);
      if i < n {
        assert init[i] == toks[i];
      }
    }
  }

  /** The scores of the first `n` sentences have no entry for sentence `n`. */
  lemma ScoresLackIndex(toks: seq<seq<string>>, freq: map<string, nat>)
    ensures !Dicts.HasKey<nat, nat>(Scores(toks, freq), |toks|)
  {
    ScoresShape(toks, freq);
    NotKeyAbove(Scores(toks, freq), |toks|);
  }

  lemma {:induction false} NotKeyAbove(d: Dicts.Dict<nat, nat>, n: nat)
    requires IndicesBelow(d, n)
    ensures !Dicts.HasKey<nat, nat>(d, n)
    decreases |d|
  {
    if d != [] {
      assert IndicesBelow(d[1..], n);
      NotKeyAbove(d[1..], n);
    }
  }

  /** Reading sentence `i` back from its own entry. */
  lemma EntryLookup(base: Dicts.Dict<nat, nat>, i: nat, tokens: seq<string>, freq: map<string, nat>)
    requires !Dicts.HasKey<nat, nat>(base, i)
    ensures Dicts.HasKey<nat, nat>(base + Entry(i, tokens, freq), i) <==> Hits(tokens, freq)
    ensures Hits(tokens, freq) ==> Dicts.Get<nat, nat>(base + Entry(i, tokens, freq), i) == Some(TokenScore(tokens, freq))
  {
    Dicts.GetAppend<nat, nat>(base, Entry(i, tokens, freq), i);
  }

  /** One more token: a token in the table adds its frequency to the entry,
      creating the entry if the sentence had none. */
  lemma EntryStep(i: nat, tokens: seq<string>, w: string, freq: map<string, nat>)
    ensures Entry(i, tokens + [w], freq)
         == if w in freq then [(i, TokenScore(tokens, freq) + freq[w])] else Entry(i, tokens, freq)
    ensures !Hits(tokens, freq) ==> TokenScore(tokens, freq) == 0
  {
    assert (tokens + [w])[..|tokens|] == tokens;
    if !Hits(tokens, freq) {
      NoHitsNoScore(tokens, freq);
    }
  }

  /** The inner loop of the scoring: the tokens of sentence `i` add their
      frequencies to the entry of `i`, which the scores so far lack. */
  method ScoreTokens(base: Dicts.Dict<nat, nat>, i: nat, words: seq<string>, freq: map<string, nat>)
    returns (scores: Dicts.Dict<nat, nat>)
    requires !Dicts.HasKey<nat, nat>(base, i)
    ensures scores == base + Entry(i, words, freq)
  {
    scores := base;
    var j := 0;
    while j < |words|
      invariant 0 <= j <= |words|
      invariant scores == base + Entry(i, words[..j], freq)
    {
      assert words[..j + 1] == words[..j] + [words[j]];
      scores := ScoreToken(base, i, words[..j], words[j], freq, scores);
      j := j + 1;
    }
    assert words[..j] == words;
  }

  /** One pass of the inner loop: token `word` adds its frequency to the entry
      of sentence `i`, creating the entry if there is none yet. */
  method ScoreToken(base: Dicts.Dict<nat, nat>, i: nat, tokens: seq<string>, word: string,
                    freq: map<string, nat>, scores: Dicts.Dict<nat, nat>)
    returns (scores': Dicts.Dict<nat, nat>)
    requires !Dicts.HasKey<nat, nat>(base, i)
    requires scores == base + Entry(i, tokens, freq)
    ensures scores' == base + Entry(i, tokens + [word], freq)
  {
    EntryLookup(base, i, tokens, freq);
    EntryStep(i, tokens, word, freq);
    scores' := scores;
    if word in freq {
      if Dicts.HasKey<nat, nat>(scores, i) {
        ghost var score := TokenScore(tokens, freq);
        var current := Dicts.Get<nat, nat>(scores, i).value;
        assert scores == base + [(i, score)] && current == score;
        Dicts.PutLast<nat, nat>(base, i, score, current + freq[word]);
        scores' := Dicts.Put<nat, nat>(scores, i, current + freq[word]);
        assert scores' == base + [(i, score + freq[word])];
      } else {
        assert scores == base && TokenScore(tokens, freq) == 0;
        scores' := Dicts.Put<nat, nat>(scores, i, freq[word]);
        assert scores' == base + [(i, freq[word])];
      }
    }
  }

  /** The scoring loop of `summarize`, building `sentence_scores`. */
  method ScoreSentences(tk: Toolkit, sentences: seq<string>, freq: map<string, nat>)
    returns (scores: Dicts.Dict<nat, nat>)
    ensures scores == Scores(SentenceTokens(tk, sentences), freq)
  {
    ghost var toks := SentenceTokens(tk, sentences);
    scores := [];
    var i := 0;
    while i < |sentences|
      invariant 0 <= i <= |sentences|
      invariant scores == Scores(toks[..i], freq)
    {
      var words := tk.wordTokenize(tk.lower(sentences[i]));
      ScoresLackIndex(toks[..i], freq);
      scores := ScoreTokens(scores, i, words, freq);
      assert toks[i] == words && toks[..i + 1][..i] == toks[..i];
      i := i + 1;
    }
    assert toks[..i] == toks;
  }

  /** The ranking order of `sorted(..., key=lambda x: x[1], reverse=True)` on
      entries in sentence order: higher score first, ties in sentence order. */
  predicate Beats(a: (nat, nat), b: (nat, nat)) {
    a.1 > b.1 || (a.1 == b.1 && a.0 < b.0)
  }

  predicate Ranked(s: seq<(nat, nat)>) {
    forall i, j :: 0 <= i < j < |s| ==> Beats(s[i], s[j])
  }

  predicate DistinctIdx(s: seq<(nat, nat)>) {
    forall i, j :: 0 <= i < j < |s| ==> s[i].0 != s[j].0
  }

  /** The sort key of `reverse=True` by score: a stable descending sort is a
      stable ascending sort by the negated key. */
  function NegScore(e: (nat, nat)): int {
    -(e.1 as int)
  }

  /** The sort key `lambda x: x[0]`. */
  function Index(e: (nat, nat)): int {
    e.0
  }

  lemma {:induction false} InsertRanked(x: (nat, nat), t: seq<(nat, nat)>)
    requires Ranked(t)
    requires forall e :: e in t ==> x.0 < e.0
    ensures Ranked(Seqs.InsertBy(x, t, NegScore))
    decreases |t|
  {
    if t != [] && NegScore(x) > NegScore(t[0]) {
      var r' := Seqs.InsertBy(x, t[1..], NegScore);
      InsertRanked(x, t[1..]);
      forall j | 0 <= j < |r'| ensures Beats(t[0], r'[j]) {
        Seqs.InsertByMembers(x, t[1..], NegScore, r'[j]);
      }
    }
  }

  /** Ranking entries given in sentence order yields the `Beats` order. */
  lemma {:induction false} SortRanked(s: seq<(nat, nat)>)
    requires IncreasingIdx(s)
    ensures Ranked(Seqs.SortBy(s, NegScore))
    decreases |s|
  {
    if s != [] {
      var t := Seqs.SortBy(s[1..], NegScore);
      SortRanked(s[1..]);
      forall e | e in t ensures s[0].0 < e.0 {
        Seqs.SortByMembers(s[1..], NegScore, e);
      }
      InsertRanked(s[0], t);
    }
  }

  lemma {:induction false} InsertDistinct(x: (nat, nat), t: seq<(nat, nat)>, key: ((nat, nat)) -> int)
    requires DistinctIdx(t)
    requires forall e :: e in t ==> x.0 != e.0
    ensures DistinctIdx(Seqs.InsertBy(x, t, key))
    decreases |t|
  {
    if t != [] && key(x) > key(t[0]) {
      var r' := Seqs.InsertBy(x, t[1..], key);
      InsertDistinct(x, t[1..], key);
      forall j | 0 <= j < |r'| ensures t[0].0 != r'[j].0 {
        Seqs.InsertByMembers(x, t[1..], key, r'[j]);
      }
    }
  }

  /** Sorting keeps sentence indices distinct. */
  lemma {:induction false} SortDistinct(s: seq<(nat, nat)>, key: ((nat, nat)) -> int)
    requires DistinctIdx(s)
    ensures DistinctIdx(Seqs.SortBy(s, key))
    decreases |s|
  {
    if s != [] {
      var t := Seqs.SortBy(s[1..], key);
      SortDistinct(s[1..], key);
      forall e | e in t ensures s[0].0 != e.0 {
        Seqs.SortByMembers(s[1..], key, e);
      }
      InsertDistinct(s[0], t, key);
    }
  }

  function Min(a: nat, b: nat): nat {
    if a <= b then a else b
  }

  /** `top_sentences`: the `k` best-ranked entries, put back in sentence order. */
  function Selection(scores: Dicts.Dict<nat, nat>, k: nat): seq<(nat, nat)> {
    var ranked := Seqs.SortBy(scores, NegScore);
    Seqs.SortBy(ranked[..Min(k, |ranked|)], Index)
  }

  /** The selection is the `k` best entries (all of them when there are fewer),
      in sentence order, and every entry left out is beaten by every entry kept. */
  lemma SelectionIsTopK(scores: Dicts.Dict<nat, nat>, k: nat)
    requires IncreasingIdx(scores)
    ensures var sel := Selection(scores, k);
      && |sel| == Min(k, |scores|)
      && IncreasingIdx(sel)
      && (forall e :: e in sel ==> e in scores)
      && (forall e, f :: e in sel && f in scores && f !in sel ==> Beats(e, f))
  {
    Seqs.SortByLength(scores, NegScore);
    var m := Min(k, |scores|);
    Seqs.SortByLength(Seqs.SortBy(scores, NegScore)[..m], Index);
    TopInIndexOrder(scores, m);
    TopFromScores(scores, m);
    TopBeatsOthers(scores, m);
  }

  /** The `m` best entries re-sorted by index: `top_sentences` for `m`. */
  function TopByIndex(scores: Dicts.Dict<nat, nat>, m: nat): seq<(nat, nat)>
    requires m <= |scores|
  {
    Seqs.SortByLength(scores, NegScore);
    Seqs.SortBy(Seqs.SortBy(scores, NegScore)[..m], Index)
  }

  lemma TopInIndexOrder(scores: Dicts.Dict<nat, nat>, m: nat)
    requires IncreasingIdx(scores) && m <= |scores|
    ensures IncreasingIdx(TopByIndex(scores, m))
  {
    Seqs.SortByLength(scores, NegScore);
    var top := Seqs.SortBy(scores, NegScore)[..m];
    var sel := Seqs.SortBy(top, Index);
    SortDistinct(scores, NegScore);
    assert DistinctIdx(top);
    SortDistinct(top, Index);
    Seqs.SortSorted(top, Index);
    forall i, j | 0 <= i < j < |sel| ensures sel[i].0 < sel[j].0 {
      assert Index(sel[i]) <= Index(sel[j]);
    }
  }

  lemma TopFromScores(scores: Dicts.Dict<nat, nat>, m: nat)
    requires m <= |scores|
    ensures forall e :: e in TopByIndex(scores, m) ==> e in scores
  {
    Seqs.SortByLength(scores, NegScore);
    var top := Seqs.SortBy(scores, NegScore)[..m];
    forall e | e in Seqs.SortBy(top, Index) ensures e in scores {
      Seqs.SortByMembers(top, Index, e);
      Seqs.SortByMembers(scores, NegScore, e);
    }
  }

  lemma TopBeatsOthers(scores: Dicts.Dict<nat, nat>, m: nat)
    requires IncreasingIdx(scores) && m <= |scores|
    ensures forall e, f :: e in TopByIndex(scores, m) && f in scores && f !in TopByIndex(scores, m) ==> Beats(e, f)
  {
    Seqs.SortByLength(scores, NegScore);
    var ranked := Seqs.SortBy(scores, NegScore);
    var top := ranked[..m];
    var sel := Seqs.SortBy(top, Index);
    SortRanked(scores);
    forall e, f | e in sel && f in scores && f !in sel ensures Beats(e, f) {
      Seqs.SortByMembers(top, Index, e);
      Seqs.SortByMembers(top, Index, f);
      Seqs.SortByMembers(scores, NegScore, f);
      TopBeatsRest(ranked, m, e, f);
    }
  }

  /** In a ranked list, every entry of a prefix beats every entry after it. */
  lemma TopBeatsRest(ranked: seq<(nat, nat)>, m: nat, e: (nat, nat), f: (nat, nat))
    requires Ranked(ranked) && m <= |ranked|
    requires e in ranked[..m] && f in ranked && f !in ranked[..m]
    ensures Beats(e, f)
  {
    var a :| 0 <= a < m && ranked[..m][a] == e;
    var b :| 0 <= b < |ranked| && ranked[b] == f;
  }

  /** Entry `e` of the scores belongs to a sentence that hits, with its score. */
  lemma {:induction false} ScoresMember(toks: seq<seq<string>>, freq: map<string, nat>, e: (nat, nat))
    requires e in Scores(toks, freq)
    ensures e.0 < |toks| && Hits(toks[e.0], freq) && e.1 == TokenScore(toks[e.0], freq)
    decreases |toks|
  {
    var n := |toks| - 1;
    var init := toks[..n];
    if e in Scores(init, freq) {
      ScoresMember(init, freq, e);
      assert init[e.0] == toks[e.0];
    }
  }

  /** The sentences `summarize` keeps: each has a counted word and its own
      score, they come in document order, there are `k` of them (or all the
      scored ones), and each beats every scored sentence left out. */
  lemma PickedSentencesOutrankOthers(toks: seq<seq<string>>, freq: map<string, nat>, k: nat)
    ensures var sel := Selection(Scores(toks, freq), k);
      && |sel| == Min(k, |Scores(toks, freq)|)
      && IncreasingIdx(sel)
      && IndicesBelow(sel, |toks|)
      && (forall e :: e in sel ==> Hits(toks[e.0], freq) && e.1 == TokenScore(toks[e.0], freq))
      && (forall e, j ::
            (e in sel && 0 <= j < |toks| && Hits(toks[j], freq) && (j, TokenScore(toks[j], freq)) !in sel)
            ==> Beats(e, (j, TokenScore(toks[j], freq))))
  {
    var scores := Scores(toks, freq);
    var sel := Selection(scores, k);
    ScoresShape(toks, freq);
    SelectionIsTopK(scores, k);
    forall e | e in sel ensures e.0 < |toks| && Hits(toks[e.0], freq) && e.1 == TokenScore(toks[e.0], freq) {
      ScoresMember(toks, freq, e);
    }
    forall j | 0 <= j < |toks| && Hits(toks[j], freq) ensures (j, TokenScore(toks[j], freq)) in scores {
      ScoresLookup(toks, freq, j);
    }
  }

  /** Python's `int(x)` on a float: truncation toward zero. */
  function Trunc(x: real): (r: int)
    ensures 0.0 <= x ==> 0 <= r && r as real <= x < r as real + 1.0
    ensures x < 0.0 ==> r <= 0 && r as real - 1.0 < x <= r as real
  {
    if 0.0 <= x then x.Floor else -((-x).Floor)
  }

  /** `num_sentences = max(1, int(len(sentences) * ratio))`. */
  function NumSentences(n: nat, ratio: real): nat {
    var t := Trunc(n as real * ratio);
    if t < 1 then 1 else t
  }

  /** At least one sentence is asked for; with a ratio in [0, 1] never more
      than there are (or one), and with ratio 1 all of them. */
  lemma NumSentencesBounds(n: nat, ratio: real)
    ensures NumSentences(n, ratio) >= 1
    ensures 0.0 <= ratio <= 1.0 ==> NumSentences(n, ratio) <= if n == 0 then 1 else n
    ensures ratio == 1.0 && n > 0 ==> NumSentences(n, ratio) == n
    ensures ratio >= 1.0 ==> NumSentences(n, ratio) >= n
  {
    NumSentencesAtMost(n, ratio);
    NumSentencesAtLeast(n, ratio);
  }

  lemma NumSentencesAtMost(n: nat, ratio: real)
    ensures 0.0 <= ratio <= 1.0 ==> NumSentences(n, ratio) <= if n == 0 then 1 else n
  {
    if 0.0 <= ratio <= 1.0 {
      ScaleDown(n as real, ratio);
      TruncBelow(n as real * ratio, n);
    }
  }

  lemma NumSentencesAtLeast(n: nat, ratio: real)
    ensures NumSentences(n, ratio) >= 1
    ensures ratio >= 1.0 ==> NumSentences(n, ratio) >= n
  {
    if ratio >= 1.0 {
      ScaleUp(n as real, ratio);
      TruncAbove(n as real * ratio, n);
    }
  }

  /** Truncating a value in [0, n] gives at most n. */
  lemma TruncBelow(x: real, n: nat)
    requires 0.0 <= x <= n as real
    ensures Trunc(x) <= n
  {
  }

  /** Truncating a value of at least n gives at least n. */
  lemma TruncAbove(x: real, n: nat)
    requires x >= n as real
    ensures Trunc(x) >= n
  {
    assert (n as real) < (Trunc(x) + 1) as real;
  }

  /** Scaling a non-negative amount by a ratio in [0, 1] keeps it between 0
      and itself. */
  lemma ScaleDown(a: real, ratio: real)
    requires a >= 0.0 && 0.0 <= ratio <= 1.0
    ensures 0.0 <= a * ratio <= a
  {
    assert a * ratio + a * (1.0 - ratio) == a;
    assert a * (1.0 - ratio) >= 0.0;
  }

  /** Scaling a non-negative amount by a ratio of at least 1 makes it no
      smaller. */
  lemma ScaleUp(a: real, ratio: real)
    requires a >= 0.0 && ratio >= 1.0
    ensures a * ratio >= a
  {
    assert a * ratio == a + a * (ratio - 1.0);
    assert a * (ratio - 1.0) >= 0.0;
  }

  /** `[sentences[i] for i, _ in top_sentences]`. */
  function Picked(sentences: seq<string>, sel: seq<(nat, nat)>): (r: seq<string>)
    requires IndicesBelow(sel, |sentences|)
    ensures |r| == |sel|
    ensures forall j :: 0 <= j < |sel| ==> r[j] == sentences[sel[j].0]
  {
    seq(|sel|, j requires 0 <= j < |sel| => sentences[sel[j].0])
  }

  /** `word_frequencies` of a text. */
  function Table(tk: Toolkit, text: string): map<string, nat> {
    Frequencies(CountedWords(tk, tk.wordTokenize(tk.lower(text))))
  }

  /** The result of `summarize(text, ratio)`. */
  function SummaryOf(tk: Toolkit, text: string, ratio: real): Summary {
    if IsBlank(text) then EmptySummary
    else
      var sentences := tk.sentTokenize(text);
      if sentences == [] then EmptySummary
      else
        var words := tk.wordTokenize(tk.lower(text));
        var freq := Table(tk, text);
        var toks := SentenceTokens(tk, sentences);
        var sel := Selection(Scores(toks, freq), NumSentences(|sentences|, ratio));
        PickedSentencesOutrankOthers(toks, freq, NumSentences(|sentences|, ratio));
        var summary := Join(" ", Picked(sentences, sel));
        Summary(summary, |tk.wordTokenize(summary)|, |words|)
  }

  /** `PdfSummarizer.summarize`. */
  method Summarize(tk: Toolkit, text: string, ratio: real) returns (r: Summary)
    ensures r == SummaryOf(tk, text, ratio)
  {
    if IsBlank(text) {
      return EmptySummary;
    }
    var sentences := tk.sentTokenize(text);
    if sentences == [] {
      return EmptySummary;
    }
    var words := tk.wordTokenize(tk.lower(text));
    var filtered := CountedWords(tk, words);
    var freq := Frequencies(filtered);
    var scores := ScoreSentences(tk, sentences, freq);
    var k := NumSentences(|sentences|, ratio);
    var top := Selection(scores, k);
    PickedSentencesOutrankOthers(SentenceTokens(tk, sentences), freq, k);
    var summary := Join(" ", Picked(sentences, top));
    r := Summary(summary, |tk.wordTokenize(summary)|, |words|);
  }

  /** A blank text, or one in which no sentence is found, gives the empty
      summary with both counts 0; otherwise `original_word_count` counts
      every token of the lower-cased text, stop words and punctuation
      included. */
  lemma SummaryCounts(tk: Toolkit, text: string, ratio: real)
    ensures IsBlank(text) || tk.sentTokenize(text) == [] ==> SummaryOf(tk, text, ratio) == Summary("", 0, 0)
    ensures !IsBlank(text) && tk.sentTokenize(text) != [] ==>
      SummaryOf(tk, text, ratio).originalWordCount == |tk.wordTokenize(tk.lower(text))|
  {
  }

  /** Every sentence has a counted word: each one gets a score. */
  lemma {:induction false} ScoresAllHit(toks: seq<seq<string>>, freq: map<string, nat>)
    requires forall i :: 0 <= i < |toks| ==> Hits(toks[i], freq)
    ensures |Scores(toks, freq)| == |toks|
    decreases |toks|
  {
    if toks != [] {
      var init := toks[..|toks| - 1];
      assert forall i :: 0 <= i < |init| ==> init[i] == toks[i];
      ScoresAllHit(init, freq);
    }
  }

  /** `n` strictly increasing indices below `n` are `0, 1, ..., n - 1`. */
  lemma {:induction false} IncreasingGap(d: seq<(nat, nat)>, i: nat, j: nat)
    requires IncreasingIdx(d) && i <= j < |d|
    ensures d[j].0 - d[i].0 >= j - i
    decreases j - i
  {
    if i < j {
      IncreasingGap(d, i, j - 1);
    }
  }

  lemma IncreasingBelowIsIdentity(d: seq<(nat, nat)>, j: nat)
    requires IncreasingIdx(d) && IndicesBelow(d, |d|) && j < |d|
    ensures d[j].0 == j
  {
    IncreasingGap(d, 0, j);
    IncreasingGap(d, j, |d| - 1);
  }

  /** Picking `n` increasing indices out of `n` sentences picks them all. */
  lemma PickedAll(sentences: seq<string>, sel: seq<(nat, nat)>)
    requires IncreasingIdx(sel) && IndicesBelow(sel, |sentences|) && |sel| == |sentences|
    ensures Picked(sentences, sel) == sentences
  {
    forall j | 0 <= j < |sel| ensures sel[j].0 == j {
      IncreasingBelowIsIdentity(sel, j);
    }
  }

  /** A ratio of at least 1 on a text whose every sentence has a counted word
      keeps the whole text: all sentences, joined by spaces, in order. */
  lemma WholeTextKept(tk: Toolkit, text: string, ratio: real)
    requires !IsBlank(text) && tk.sentTokenize(text) != [] && ratio >= 1.0
    requires var toks := SentenceTokens(tk, tk.sentTokenize(text));
      forall i :: 0 <= i < |toks| ==> Hits(toks[i], Table(tk, text))
    ensures SummaryOf(tk, text, ratio).summary == Join(" ", tk.sentTokenize(text))
  {
    var sentences := tk.sentTokenize(text);
    var toks := SentenceTokens(tk, sentences);
    var n := |sentences|;
    var k := NumSentences(n, ratio);
    NumSentencesBounds(n, ratio);
    var freq := Table(tk, text);
    var sel := Selection(Scores(toks, freq), k);
    ScoresAllHit(toks, freq);
    PickedSentencesOutrankOthers(toks, freq, k);
    PickedAll(sentences, sel);
  }

  lemma {:induction false} NoHitsNoScores(toks: seq<seq<string>>, freq: map<string, nat>)
    requires forall i :: 0 <= i < |toks| ==> !Hits(toks[i], freq)
    ensures Scores(toks, freq) == []
    decreases |toks|
  {
    if toks != [] {
      var init := toks[..|toks| - 1];
      assert forall i :: 0 <= i < |init| ==> init[i] == toks[i];
      NoHitsNoScores(init, freq);
    }
  }

  /** When no sentence has a counted word, nothing is scored and the summary is
      empty. */
  lemma NothingScoredEmptySummary(tk: Toolkit, text: string, ratio: real)
    requires var toks := SentenceTokens(tk, tk.sentTokenize(text));
      forall i :: 0 <= i < |toks| ==> !Hits(toks[i], Table(tk, text))
    ensures SummaryOf(tk, text, ratio).summary == ""
  {
    if !IsBlank(text) && tk.sentTokenize(text) != [] {
      var toks := SentenceTokens(tk, tk.sentTokenize(text));
      NoHitsNoScores(toks, Table(tk, text));
    }
  }
}
