/** Grounding validation of a generated answer: the answer is split into
    sentences, each sentence is checked against the context chunks by four
    strategies in a fixed order (citation marker, exact substring, word
    overlap, embedding similarity), and the share of grounded sentences
    decides whether the answer is accepted. */
module Validation {
  import opened Wrappers
  import opened Text
  import opened Dicts
  import opened Config
  import opened Scoring
  import opened Context

  // ---------------------------------------------------------------------------
  // Results

  datatype MatchType = Cited | Exact | Paraphrase | Inferred | Ungrounded {

    function Value(): string {
      match this
      case Cited => "cited"
      case Exact => "exact"
      case Paraphrase => "paraphrase"
      case Inferred => "inferred"
      case Ungrounded => "ungrounded"
    }
  }

  datatype GroundingResult = GroundingResult(
    sentence: string,
    isGrounded: bool,
    confidence: real,
    matchedChunks: seq<string>,
    matchedExcerpts: seq<string>,
    matchType: MatchType)

  datatype ValidationResult = ValidationResult(
    isValid: bool,
    groundingScore: real,
    sentenceResults: seq<GroundingResult>,
    warnings: seq<string>,
    errors: seq<string>)

  const EmptyWarning: string := "Empty answer or context"

  const LowGroundingError: string := "Less than 50% of the answer is grounded in sources"

  const NoMarkersWarning: string := "Answer contains no citation markers"

  function UnverifiedWarning(n: nat): string {
    NatToString(n) + " sentence(s) could not be verified"
  }

  // ---------------------------------------------------------------------------
  // Searching a sequence

  /** Index of the first element satisfying `p`, if any. */
  function FirstWhere<T>(xs: seq<T>, p: T -> bool): (r: Option<nat>)
    ensures r.None? <==> forall i :: 0 <= i < |xs| ==> !p(xs[i])
    ensures r.Some? ==> r.value < |xs| && p(xs[r.value])
    ensures r.Some? ==> forall i :: 0 <= i < r.value ==> !p(xs[i])
    decreases |xs|
  {
    if |xs| == 0 then None
    else if p(xs[0]) then Some(0)
    else
      var r := FirstWhere(xs[1..], p);
      assert forall i :: 1 <= i < |xs| ==> xs[i] == xs[1..][i - 1];
      if r.Some? then Some(r.value + 1) else None
  }

  /** The loop `if score(x) > best: best = score(x)` started from 0: the index
      of the first element with the highest score, when that score is
      positive. */
  function BestIndex<T>(xs: seq<T>, score: T -> real): (r: Option<nat>)
    ensures r.None? <==> forall i :: 0 <= i < |xs| ==> score(xs[i]) <= 0.0
    ensures r.Some? ==> r.value < |xs| && score(xs[r.value]) > 0.0
    ensures r.Some? ==> forall i :: 0 <= i < |xs| ==> score(xs[i]) <= score(xs[r.value])
    ensures r.Some? ==> forall i :: 0 <= i < r.value ==> score(xs[i]) < score(xs[r.value])
    decreases |xs|
  {
    if |xs| == 0 then None
    else
      var init := xs[..|xs| - 1];
      var b := BestIndex(init, score);
      assert forall i :: 0 <= i < |init| ==> init[i] == xs[i];
      var best := if b.Some? then score(xs[b.value]) else 0.0;
      if score(xs[|xs| - 1]) > best then Some(|xs| - 1) else b
  }

  /** The best score the loop ends with (0 when nothing scored above 0). */
  function BestScore<T>(xs: seq<T>, score: T -> real): (m: real)
    ensures m >= 0.0
    ensures forall i :: 0 <= i < |xs| ==> score(xs[i]) <= m
    ensures m > 0.0 ==> exists i :: 0 <= i < |xs| && score(xs[i]) == m
  {
    var b := BestIndex(xs, score);
    if b.Some? then score(xs[b.value]) else 0.0
  }

  // ---------------------------------------------------------------------------
  // Sentence splitting

  /** The regex `(?<!\w\.\w.)(?<![A-Z][a-z]\.)(?<=\.|\?|\!)\s` matches the
      whitespace character at `i`: it follows '.', '?' or '!', and the text
      before it ends neither like "e.g." nor like "Dr.". */
  predicate IsSentenceBreak(s: string, i: int) {
    0 < i < |s| && IsSpace(s[i])
    && (s[i - 1] == '.' || s[i - 1] == '?' || s[i - 1] == '!')
    && !(i >= 3 && IsUpperAlpha(s[i - 3]) && IsLowerAlpha(s[i - 2]) && s[i - 1] == '.')
    && !(i >= 4 && IsWordChar(s[i - 4]) && s[i - 3] == '.' && IsWordChar(s[i - 2]) && s[i - 1] != '\n')
  }

  /** `re.sub(<break>, '\n', s)`: every sentence break becomes a newline. */
  function MarkBreaks(s: string): (r: string)
    ensures |r| == |s|
    ensures forall i :: 0 <= i < |s| ==> r[i] == if IsSentenceBreak(s, i) then '\n' else s[i]
  {
    seq(|s|, i requires 0 <= i < |s| => if IsSentenceBreak(s, i) then '\n' else s[i])
  }

  /** `[p.strip() for p in parts if p.strip()]` */
  function StrippedNonBlank(parts: seq<string>): (r: seq<string>)
    ensures |r| <= |parts|
    ensures forall i :: 0 <= i < |r| ==> r[i] != "" && IsStripped(r[i])
    decreases |parts|
  {
    if |parts| == 0 then []
    else
      var t := Strip(parts[0]);
      (if t != "" then [t] else []) + StrippedNonBlank(parts[1..])
  }

  /** `_split_sentences` */
  function SplitSentences(text: string): (r: seq<string>)
    ensures forall i :: 0 <= i < |r| ==> r[i] != "" && IsStripped(r[i])
  {
    StrippedNonBlank(Split(MarkBreaks(text), '\n'))
  }

  lemma {:induction false} StrippedNonBlankEmpty(parts: seq<string>)
    ensures StrippedNonBlank(parts) == [] <==> forall i :: 0 <= i < |parts| ==> AllSpace(parts[i])
    decreases |parts|
  {
    if |parts| > 0 {
      StrippedNonBlankEmpty(parts[1..]);
      assert forall i :: 1 <= i < |parts| ==> parts[i] == parts[1..][i - 1];
    }
  }

  lemma AllSpaceConcat(a: string, b: string)
    ensures AllSpace(a + b) <==> AllSpace(a) && AllSpace(b)
  {
    if AllSpace(a + b) {
      assert forall i :: 0 <= i < |a| ==> a[i] == (a + b)[i];
      assert forall i :: 0 <= i < |b| ==> b[i] == (a + b)[|a| + i];
    }
    if AllSpace(a) && AllSpace(b) {
      forall i | 0 <= i < |a + b| ensures IsSpace((a + b)[i]) {
        if i < |a| {
          assert (a + b)[i] == a[i];
        } else {
          assert (a + b)[i] == b[i - |a|];
        }
      }
    }
  }

  /** With a whitespace separator, a joined string is blank exactly when
      every part is. */
  lemma {:induction false} JoinAllSpace(sep: string, parts: seq<string>)
    requires AllSpace(sep)
    ensures AllSpace(Join(sep, parts)) <==> forall i :: 0 <= i < |parts| ==> AllSpace(parts[i])
    decreases |parts|
  {
    if |parts| > 1 {
      JoinAllSpace(sep, parts[1..]);
      AllSpaceConcat(parts[0] + sep, Join(sep, parts[1..]));
      AllSpaceConcat(parts[0], sep);
      assert forall i :: 1 <= i < |parts| ==> parts[i] == parts[1..][i - 1];
    }
  }

  /** An answer yields no sentences exactly when it is blank. */
  lemma SplitSentencesEmpty(text: string)
    ensures SplitSentences(text) == [] <==> AllSpace(text)
  {
    var m := MarkBreaks(text);
    var parts := Split(m, '\n');
    JoinSplit(m, '\n');
    JoinAllSpace(['\n'], parts);
    StrippedNonBlankEmpty(parts);
    assert AllSpace(m) <==> AllSpace(text);
  }

  /** Text without newlines or sentence breaks is one sentence: itself,
      stripped. */
  lemma SingleSentence(text: string)
    requires forall i :: 0 <= i < |text| ==> text[i] != '\n' && !IsSentenceBreak(text, i)
    requires !AllSpace(text)
    ensures SplitSentences(text) == [Strip(text)]
  {
    assert MarkBreaks(text) == text;
    SplitNoSep(text, '\n');
  }

  // ---------------------------------------------------------------------------
  // Word overlap

  function WordSet(s: string): set<string> { set w | w in Words(s) }

  const OverlapStopwords: set<string> := {
    "the", "a", "an", "is", "are", "was", "were", "be", "been",
    "to", "of", "in", "for", "on", "with", "at", "by", "from",
    "this", "that", "these", "those", "it", "its"}

  /** The sentence lowercased, citation markers removed, stripped. */
  function CleanSentence(sentence: string): string {
    Strip(StripMarkers(Lower(sentence)))
  }

  function SentenceWords(sentence: string): set<string> {
    WordSet(CleanSentence(sentence)) - OverlapStopwords
  }

  function ContentWords(content: string): set<string> {
    WordSet(Lower(content)) - OverlapStopwords
  }

  /** The share of the words of `sw` that also lie in `cw` (0 for no words). */
  function WordShare(sw: set<string>, cw: set<string>): (r: real)
    ensures sw == {} ==> r == 0.0
    ensures sw != {} ==> r == (|sw * cw| as real) / (|sw| as real)
    ensures 0.0 <= r <= 1.0
    ensures r == 0.0 <==> sw * cw == {}
    ensures r == 1.0 <==> sw != {} && sw <= cw
  {
    if sw == {} then 0.0
    else
      var part := sw * cw;
      var r := Fraction(part, sw);
      assert r == (|part| as real) / (|sw| as real);
      assert r == 0.0 <==> |part| == 0 by {
        assert |sw| > 0;
        if r == 0.0 {
          assert (|part| as real) == r * (|sw| as real);
        }
      }
      assert part == sw <==> sw <= cw;
      r
  }

  /** `_fuzzy_match_score`: the share of the sentence's content words that
      also occur in the chunk. */
  function FuzzyMatchScore(sentence: string, content: string): (r: real)
    ensures SentenceWords(sentence) == {} ==> r == 0.0
    ensures SentenceWords(sentence) != {} ==>
              r == (|SentenceWords(sentence) * ContentWords(content)| as real) / (|SentenceWords(sentence)| as real)
    ensures 0.0 <= r <= 1.0
    ensures r == 0.0 <==> SentenceWords(sentence) * ContentWords(content) == {}
    ensures r == 1.0 <==> SentenceWords(sentence) != {} && SentenceWords(sentence) <= ContentWords(content)
  {
    WordShare(SentenceWords(sentence), ContentWords(content))
  }

  /** The overlap threshold of strategy 3 in whole numbers: the score
      exceeds 0.6 exactly when five times the shared words exceed three times
      the sentence's words. */
  lemma FuzzyAboveThreshold(sentence: string, content: string)
    ensures var sw := SentenceWords(sentence);
            FuzzyMatchScore(sentence, content) > 0.6 <==> 5 * |sw * ContentWords(content)| > 3 * |sw|
  {
    var sw := SentenceWords(sentence);
    if sw != {} {
      RatioAbove(|sw * ContentWords(content)| as real, |sw| as real);
    }
  }

  lemma RatioAbove(a: real, n: real)
    requires n > 0.0
    ensures a / n > 0.6 <==> 5.0 * a > 3.0 * n
  {
    var q := a / n;
    assert q * n == a;
    if q > 0.6 {
      assert (q - 0.6) * n > 0.0;
    } else {
      assert (0.6 - q) * n >= 0.0;
    }
  }

  /** More content words never lower the overlap score. */
  lemma FuzzyMonotone(sentence: string, content: string, more: string)
    requires ContentWords(content) <= ContentWords(more)
    ensures FuzzyMatchScore(sentence, content) <= FuzzyMatchScore(sentence, more)
  {
    var sw := SentenceWords(sentence);
    if sw != {} {
      var a := sw * ContentWords(content);
      var b := sw * ContentWords(more);
      assert a <= b;
      SubsetCardinality(a, b);
      DivMonotone(|a| as real, |b| as real, |sw| as real);
    }
  }

  // ---------------------------------------------------------------------------
  // Embedding similarity

  /** The dot product of the two texts' normalised embeddings; the embedding
      model is not part of this model. */
  type Cosine = (string, string) -> real

  function Clamp01(x: real): (r: real)
    ensures 0.0 <= r <= 1.0
    ensures 0.0 <= x <= 1.0 ==> r == x
  {
    if x < 0.0 then 0.0 else if x > 1.0 then 1.0 else x
  }

  /** `_semantic_similarity` */
  function Similarity(cosine: Cosine, a: string, b: string): (r: real)
    ensures 0.0 <= r <= 1.0
  {
    Clamp01(cosine(a, b))
  }

  // ---------------------------------------------------------------------------
  // Matching excerpt

  const ExcerptLength: nat := 200

  /** How many of `words` the content sentence `e` holds. */
  function ExcerptOverlap(words: set<string>, e: string): real {
    |words * WordSet(Lower(e))| as real
  }

  function Overlap(words: set<string>): string -> real {
    (e: string) => ExcerptOverlap(words, e)
  }

  /** The first of `cs` with the highest positive score, cut to 200
      characters plus "..."; "" when no score is positive. */
  function PickExcerpt(cs: seq<string>, score: string -> real): (r: string)
    requires forall i :: 0 <= i < |cs| ==> cs[i] != ""
    ensures r == "" <==> forall i :: 0 <= i < |cs| ==> score(cs[i]) <= 0.0
    ensures r != "" ==> exists i :: 0 <= i < |cs| && IsExcerptOf(r, cs[i]) && FirstBest(cs, score, i)
    ensures |r| <= ExcerptLength + 3
  {
    var b := BestIndex(cs, score);
    var best := if b.Some? then cs[b.value] else "";
    if |best| > ExcerptLength then best[..ExcerptLength] + "..." else best
  }

  /** `_find_matching_excerpt`: the first sentence of the content sharing
      the most words with the sentence, cut to 200 characters plus "...";
      "" when no content sentence shares a word. */
  function FindMatchingExcerpt(sentence: string, content: string): (r: string)
    ensures var cs := SplitSentences(content);
            var words := WordSet(Lower(sentence));
            (r == "" <==> forall i :: 0 <= i < |cs| ==> ExcerptOverlap(words, cs[i]) == 0.0)
            && (r != "" ==> exists i :: 0 <= i < |cs| && IsExcerptOf(r, cs[i]) && FirstBest(cs, Overlap(words), i))
    ensures |r| <= ExcerptLength + 3
  {
    PickExcerpt(SplitSentences(content), Overlap(WordSet(Lower(sentence))))
  }

  /** `xs[i]` scores highest of all, and strictly higher than every element
      before it: the element a strict `>` scan keeps. */
  predicate FirstBest<T>(xs: seq<T>, score: T -> real, i: nat)
    requires i < |xs|
  {
    (forall j :: 0 <= j < |xs| ==> score(xs[j]) <= score(xs[i]))
    && (forall j :: 0 <= j < i ==> score(xs[j]) < score(xs[i]))
  }

  /** `r` is `e`, or the first 200 characters of `e` followed by "...". */
  predicate IsExcerptOf(r: string, e: string) {
    if |e| > ExcerptLength then r == e[..ExcerptLength] + "..." else r == e
  }

  // ---------------------------------------------------------------------------
  // The four strategies, each specified by when it applies

  /** Marker digits `m` cite a context chunk (1-based) whose similarity to the
      sentence exceeds 0.5. */
  predicate CitesSupport(chunks: seq<ContextChunk>, sentence: string, cosine: Cosine, m: string) {
    AllDigits(m) && 1 <= ParseNat(m) <= |chunks|
    && Similarity(cosine, sentence, chunks[ParseNat(m) - 1].content) > 0.5
  }

  function CitesSupportOf(chunks: seq<ContextChunk>, sentence: string, cosine: Cosine): string -> bool {
    m => CitesSupport(chunks, sentence, cosine, m)
  }

  predicate CitedSupport(sentence: string, chunks: seq<ContextChunk>, cosine: Cosine) {
    var ms := FindMarkers(sentence);
    exists i :: 0 <= i < |ms| && CitesSupport(chunks, sentence, cosine, ms[i])
  }

  predicate ExactSupport(sentence: string, index: Dict<string, string>) {
    var clean := CleanSentence(sentence);
    |clean| > 20 && exists i :: 0 <= i < |index| && Contains(index[i].1, clean)
  }

  predicate FuzzySupport(sentence: string, chunks: seq<ContextChunk>) {
    exists i :: 0 <= i < |chunks| && FuzzyMatchScore(sentence, chunks[i].content) > 0.6
  }

  predicate SemanticSupport(sentence: string, chunks: seq<ContextChunk>, cosine: Cosine) {
    exists i :: 0 <= i < |chunks| && Similarity(cosine, sentence, chunks[i].content) > 0.7
  }

  function FuzzyKey(sentence: string): ContextChunk -> real {
    (c: ContextChunk) => FuzzyMatchScore(sentence, c.content)
  }

  function SemanticKey(cosine: Cosine, sentence: string): ContextChunk -> real {
    (c: ContextChunk) => Similarity(cosine, sentence, c.content)
  }

  function ContainsClean(clean: string): ((string, string)) -> bool {
    (e: (string, string)) => Contains(e.1, clean)
  }

  /** Strategy 1: the first marker, in sentence order, that cites a chunk
      similar enough to the sentence. */
  function CitedMatch(sentence: string, chunks: seq<ContextChunk>, cosine: Cosine): (r: Option<GroundingResult>)
    ensures r.Some? <==> CitedSupport(sentence, chunks, cosine)
    ensures r.Some? ==> var g := r.value;
              g.isGrounded && g.matchType == Cited && 0.5 < g.confidence <= 1.0
              && |g.matchedChunks| == 1 && |g.matchedExcerpts| == 1
              && exists k :: 0 <= k < |chunks| && g.matchedChunks[0] == chunks[k].chunkId
                             && g.confidence == Similarity(cosine, sentence, chunks[k].content)
                             && "[" + NatToString(k + 1) + "]" in MarkerStrings(sentence)
    ensures forall f: nat :: FirstCiting(sentence, chunks, cosine, f) ==>
              r == Some(CitedResult(sentence, chunks[ParseNat(FindMarkers(sentence)[f]) - 1], cosine))
  {
    var ms := FindMarkers(sentence);
    var f := FirstWhere(ms, CitesSupportOf(chunks, sentence, cosine));
    if f.None? then
      assert forall g: nat :: !FirstCiting(sentence, chunks, cosine, g);
      None
    else
      var m := ms[f.value];
      FirstCitingOf(sentence, chunks, cosine, f.value);
      FirstCitingUnique(sentence, chunks, cosine, f.value);
      var k := ParseNat(m) - 1;
      CitedMarkerFound(sentence, f.value, k);
      Some(CitedResult(sentence, chunks[k], cosine))
  }

  /** Marker `f` of the sentence is the first that cites a chunk similar
      enough to the sentence. */
  predicate FirstCiting(sentence: string, chunks: seq<ContextChunk>, cosine: Cosine, f: nat) {
    var ms := FindMarkers(sentence);
    f < |ms| && CitesSupport(chunks, sentence, cosine, ms[f])
    && forall j :: 0 <= j < f ==> !CitesSupport(chunks, sentence, cosine, ms[j])
  }

  lemma FirstCitingOf(sentence: string, chunks: seq<ContextChunk>, cosine: Cosine, f: nat)
    requires FirstWhere(FindMarkers(sentence), CitesSupportOf(chunks, sentence, cosine)) == Some(f)
    ensures FirstCiting(sentence, chunks, cosine, f)
  {
  }

  lemma FirstCitingUnique(sentence: string, chunks: seq<ContextChunk>, cosine: Cosine, f: nat)
    requires FirstCiting(sentence, chunks, cosine, f)
    ensures forall g: nat :: FirstCiting(sentence, chunks, cosine, g) ==> g == f
  {
  }

  /** The verdict for a sentence whose marker cites chunk `c`. */
  function CitedResult(sentence: string, c: ContextChunk, cosine: Cosine): GroundingResult {
    GroundingResult(sentence, true, Similarity(cosine, sentence, c.content), [c.chunkId],
                    [FindMatchingExcerpt(sentence, c.content)], Cited)
  }

  /** The markers of a sentence, written back as "[n]" with `n` as parsed. */
  function MarkerStrings(sentence: string): seq<string> {
    var ms := FindMarkers(sentence);
    seq(|ms|, i requires 0 <= i < |ms| => "[" + NatToString(ParseNat(ms[i])) + "]")
  }

  lemma CitedMarkerFound(sentence: string, i: nat, k: nat)
    requires i < |FindMarkers(sentence)| && ParseNat(FindMarkers(sentence)[i]) == k + 1
    ensures "[" + NatToString(k + 1) + "]" in MarkerStrings(sentence)
  {
    assert MarkerStrings(sentence)[i] == "[" + NatToString(k + 1) + "]";
  }

  /** Strategy 2: the first entry of the content index, in dict order, whose
      lowercased content holds the cleaned sentence of more than 20
      characters. */
  function ExactMatch(sentence: string, index: Dict<string, string>): (r: Option<GroundingResult>)
    ensures r.Some? <==> ExactSupport(sentence, index)
    ensures r.Some? ==> var g := r.value;
              g.isGrounded && g.matchType == Exact && g.confidence == 1.0
              && g.matchedExcerpts == [CleanSentence(sentence)]
              && |g.matchedChunks| == 1
              && exists i :: 0 <= i < |index| && index[i].0 == g.matchedChunks[0]
                             && Contains(index[i].1, CleanSentence(sentence))
    ensures r.Some? ==>
              exists i :: 0 <= i < |index| && Contains(index[i].1, CleanSentence(sentence))
                          && (forall j :: 0 <= j < i ==> !Contains(index[j].1, CleanSentence(sentence)))
                          && r.value == GroundingResult(sentence, true, 1.0, [index[i].0], [CleanSentence(sentence)], Exact)
  {
    var clean := CleanSentence(sentence);
    if |clean| <= 20 then None
    else
      var f := FirstWhere(index, ContainsClean(clean));
      if f.None? then None
      else Some(GroundingResult(sentence, true, 1.0, [index[f.value].0], [clean], Exact))
  }

  /** The verdict of strategies 3 and 4 for the best chunk `c`: an empty id
      or an empty excerpt is left out, as `[x] if x else []` does. */
  function BestResult(sentence: string, c: ContextChunk, score: real, kind: MatchType): GroundingResult {
    var excerpt := FindMatchingExcerpt(sentence, c.content);
    GroundingResult(sentence, true, score,
                    if c.chunkId != "" then [c.chunkId] else [],
                    if excerpt != "" then [excerpt] else [], kind)
  }

  /** Strategies 3 and 4: the scan keeps the first chunk with the highest
      positive score; the strategy applies when that score exceeds the
      threshold. */
  function BestMatch(sentence: string, chunks: seq<ContextChunk>, key: ContextChunk -> real,
                     threshold: real, kind: MatchType): (r: Option<GroundingResult>)
    requires threshold >= 0.0
    ensures r.Some? <==> exists i :: 0 <= i < |chunks| && key(chunks[i]) > threshold
    ensures r.Some? ==> var g := r.value;
              g.isGrounded && g.matchType == kind
              && g.confidence == BestScore(chunks, key) > threshold
              && |g.matchedChunks| <= 1 && |g.matchedExcerpts| <= 1
              && forall i :: 0 <= i < |chunks| ==> key(chunks[i]) <= g.confidence
    ensures r.Some? ==>
              exists i :: 0 <= i < |chunks| && FirstBest(chunks, key, i)
                          && r.value == BestResult(sentence, chunks[i], r.value.confidence, kind)
  {
    var b := BestIndex(chunks, key);
    var best := BestScore(chunks, key);
    if best > threshold then
      assert FirstBest(chunks, key, b.value);
      Some(BestResult(sentence, chunks[b.value], best, kind))
    else
      None
  }

  /** Strategy 3: the first chunk with the best word overlap, if that overlap
      exceeds 0.6. */
  function FuzzyMatch(sentence: string, chunks: seq<ContextChunk>): (r: Option<GroundingResult>)
    ensures r.Some? <==> FuzzySupport(sentence, chunks)
    ensures r.Some? ==> var g := r.value;
              g.isGrounded && g.matchType == Paraphrase
              && g.confidence == BestScore(chunks, FuzzyKey(sentence)) > 0.6
              && |g.matchedChunks| <= 1 && |g.matchedExcerpts| <= 1
              && forall i :: 0 <= i < |chunks| ==> FuzzyMatchScore(sentence, chunks[i].content) <= g.confidence
    ensures r.Some? ==>
              exists i :: 0 <= i < |chunks| && FirstBest(chunks, FuzzyKey(sentence), i)
                          && r.value == BestResult(sentence, chunks[i], r.value.confidence, Paraphrase)
  {
    var key := FuzzyKey(sentence);
    assert forall i :: 0 <= i < |chunks| ==> key(chunks[i]) == FuzzyMatchScore(sentence, chunks[i].content);
    BestMatch(sentence, chunks, key, 0.6, Paraphrase)
  }

  /** Strategy 4: the first chunk most similar to the sentence, if that
      similarity exceeds 0.7. */
  function SemanticMatch(sentence: string, chunks: seq<ContextChunk>, cosine: Cosine): (r: Option<GroundingResult>)
    ensures r.Some? <==> SemanticSupport(sentence, chunks, cosine)
    ensures r.Some? ==> var g := r.value;
              g.isGrounded && g.matchType == Inferred
              && g.confidence == BestScore(chunks, SemanticKey(cosine, sentence)) > 0.7
              && |g.matchedChunks| <= 1 && |g.matchedExcerpts| <= 1
              && forall i :: 0 <= i < |chunks| ==> Similarity(cosine, sentence, chunks[i].content) <= g.confidence
    ensures r.Some? ==>
              exists i :: 0 <= i < |chunks| && FirstBest(chunks, SemanticKey(cosine, sentence), i)
                          && r.value == BestResult(sentence, chunks[i], r.value.confidence, Inferred)
  {
    var key := SemanticKey(cosine, sentence);
    assert forall i :: 0 <= i < |chunks| ==> key(chunks[i]) == Similarity(cosine, sentence, chunks[i].content);
    BestMatch(sentence, chunks, key, 0.7, Inferred)
  }

  /** `_validate_sentence`: the first strategy that applies decides; when
      none does, the sentence is ungrounded with the better of the best
      overlap and best similarity as its confidence. */
  function ValidateSentence(sentence: string, chunks: seq<ContextChunk>, index: Dict<string, string>, cosine: Cosine): (r: GroundingResult)
    ensures r.sentence == sentence
    ensures 0.0 <= r.confidence <= 1.0
    ensures r.isGrounded <==> r.matchType != Ungrounded
    ensures r.isGrounded <==> CitedSupport(sentence, chunks, cosine) || ExactSupport(sentence, index)
                              || FuzzySupport(sentence, chunks) || SemanticSupport(sentence, chunks, cosine)
    ensures r.matchType == Cited <==> CitedSupport(sentence, chunks, cosine)
    ensures r.matchType == Exact <==> !CitedSupport(sentence, chunks, cosine) && ExactSupport(sentence, index)
    ensures r.matchType == Paraphrase <==>
              !CitedSupport(sentence, chunks, cosine) && !ExactSupport(sentence, index) && FuzzySupport(sentence, chunks)
    ensures !r.isGrounded ==>
              r.matchedChunks == [] && r.matchedExcerpts == []
              && r.confidence == Max2(BestScore(chunks, FuzzyKey(sentence)), BestScore(chunks, SemanticKey(cosine, sentence)))
    ensures r.matchType == Cited ==> Some(r) == CitedMatch(sentence, chunks, cosine)
    ensures r.matchType == Exact ==> Some(r) == ExactMatch(sentence, index)
    ensures r.matchType == Paraphrase ==> Some(r) == FuzzyMatch(sentence, chunks)
    ensures r.matchType == Inferred ==> Some(r) == SemanticMatch(sentence, chunks, cosine)
  {
    var cited := CitedMatch(sentence, chunks, cosine);
    var exact := ExactMatch(sentence, index);
    var fuzzy := FuzzyMatch(sentence, chunks);
    var semantic := SemanticMatch(sentence, chunks, cosine);
    if cited.Some? then cited.value
    else if exact.Some? then exact.value
    else if fuzzy.Some? then fuzzy.value
    else if semantic.Some? then semantic.value
    else NoMatch(sentence, chunks, cosine)
  }

  /** The verdict when no strategy applies. */
  function NoMatch(sentence: string, chunks: seq<ContextChunk>, cosine: Cosine): (r: GroundingResult)
    ensures r.sentence == sentence && !r.isGrounded && r.matchType == Ungrounded
    ensures r.matchedChunks == [] && r.matchedExcerpts == []
    ensures 0.0 <= r.confidence <= 1.0
    ensures r.confidence == Max2(BestScore(chunks, FuzzyKey(sentence)), BestScore(chunks, SemanticKey(cosine, sentence)))
  {
    var bestFuzzy := BestScore(chunks, FuzzyKey(sentence));
    var bestSemantic := BestScore(chunks, SemanticKey(cosine, sentence));
    assert bestFuzzy <= 1.0 by {
      if bestFuzzy > 0.0 {
        var i :| 0 <= i < |chunks| && FuzzyKey(sentence)(chunks[i]) == bestFuzzy;
      }
    }
    assert bestSemantic <= 1.0 by {
      if bestSemantic > 0.0 {
        var i :| 0 <= i < |chunks| && SemanticKey(cosine, sentence)(chunks[i]) == bestSemantic;
      }
    }
    GroundingResult(sentence, false, Max2(bestFuzzy, bestSemantic), [], [], Ungrounded)
  }

  // ---------------------------------------------------------------------------
  // The answer as a whole

  /** `{chunk.chunk_id: chunk.content.lower() for chunk in context_chunks}` */
  function ContentIndex(chunks: seq<ContextChunk>): (r: Dict<string, string>)
    ensures WellFormed(r)
    ensures forall i :: 0 <= i < |chunks| ==> Get(r, chunks[i].chunkId).Some?
  {
    var pairs := seq(|chunks|, i requires 0 <= i < |chunks| => (chunks[i].chunkId, Lower(chunks[i].content)));
    var r := FromPairs(pairs);
    assert forall i :: 0 <= i < |chunks| ==> chunks[i].chunkId in Keys(r) by {
      forall i | 0 <= i < |chunks| ensures chunks[i].chunkId in Keys(r) {
        var ks := Keys(pairs);
        assert ks[i] == chunks[i].chunkId;
      }
    }
    r
  }

  function CountGrounded(rs: seq<GroundingResult>): (n: nat)
    ensures n <= |rs|
    ensures n == |rs| <==> forall i :: 0 <= i < |rs| ==> rs[i].isGrounded
    ensures n == 0 <==> forall i :: 0 <= i < |rs| ==> !rs[i].isGrounded
    decreases |rs|
  {
    if |rs| == 0 then 0
    else
      assert forall i :: 1 <= i < |rs| ==> rs[i] == rs[1..][i - 1];
      (if rs[0].isGrounded then 1 else 0) + CountGrounded(rs[1..])
  }

  function ValidateAll(sentences: seq<string>, chunks: seq<ContextChunk>, index: Dict<string, string>, cosine: Cosine): (r: seq<GroundingResult>)
    ensures |r| == |sentences|
    ensures forall i :: 0 <= i < |r| ==> r[i] == ValidateSentence(sentences[i], chunks, index, cosine)
  {
    seq(|sentences|, i requires 0 <= i < |sentences| => ValidateSentence(sentences[i], chunks, index, cosine))
  }

  /** `grounded_count / len(sentence_results) if sentence_results else 0.0`:
      the share of grounded sentences, 1 exactly when all are grounded and 0
      exactly when none is. */
  function GroundingScore(rs: seq<GroundingResult>): (r: real)
    ensures 0.0 <= r <= 1.0
    ensures rs == [] ==> r == 0.0
    ensures rs != [] ==> r * (|rs| as real) == CountGrounded(rs) as real
    ensures r == 1.0 <==> rs != [] && forall i :: 0 <= i < |rs| ==> rs[i].isGrounded
    ensures r == 0.0 <==> forall i :: 0 <= i < |rs| ==> !rs[i].isGrounded
  {
    if rs == [] then 0.0
    else
      var g := CountGrounded(rs);
      RatioFacts(g, |rs|);
      (g as real) / (|rs| as real)
  }

  lemma RatioFacts(g: nat, n: nat)
    requires 0 < n && g <= n
    ensures var r := (g as real) / (n as real);
            0.0 <= r <= 1.0 && r * (n as real) == g as real
            && (r == 1.0 <==> g == n) && (r == 0.0 <==> g == 0)
  {
    var r := (g as real) / (n as real);
    assert r * (n as real) == g as real;
    DivMonotone(g as real, n as real, n as real);
    DivSelf(n as real);
    DivMonotone(0.0, g as real, n as real);
    if r == 1.0 {
      assert g as real == n as real;
    }
  }

  /** The warnings for a non-empty answer: the count of unverified sentences
      first, when there are any, then the missing-marker warning. */
  function Warnings(answer: string, rs: seq<GroundingResult>): (w: seq<string>)
    ensures (exists i :: 0 <= i < |rs| && !rs[i].isGrounded) <==>
              (|w| > 0 && w[0] == UnverifiedWarning(|rs| - CountGrounded(rs)))
    ensures NoMarkersWarning in w <==> FindMarkers(answer) == []
    ensures |w| == (if |rs| - CountGrounded(rs) > 0 then 1 else 0) + (if FindMarkers(answer) == [] then 1 else 0)
    ensures |w| <= 2
  {
    var u := |rs| - CountGrounded(rs);
    assert NoMarkersWarning != UnverifiedWarning(u) by {
      assert NoMarkersWarning[0] == 'A';
      assert IsDigit(UnverifiedWarning(u)[0]);
    }
    (if u > 0 then [UnverifiedWarning(u)] else [])
    + (if FindMarkers(answer) == [] then [NoMarkersWarning] else [])
  }

  /** The errors: the "<50%" error exactly when the score is below one half. */
  function Errors(score: real): (e: seq<string>)
    ensures e != [] <==> score < 0.5
    ensures e == [] || e == [LowGroundingError]
  {
    if score < 0.5 then [LowGroundingError] else []
  }

  /** `validate_answer` */
  function ValidateAnswer(answer: string, chunks: seq<ContextChunk>, cosine: Cosine): (r: ValidationResult)
    ensures answer == "" || chunks == [] ==> r == ValidationResult(false, 0.0, [], [EmptyWarning], [])
    ensures answer != "" && chunks != [] ==>
              r.sentenceResults == ValidateAll(SplitSentences(answer), chunks, ContentIndex(chunks), cosine)
              && r.groundingScore == GroundingScore(r.sentenceResults)
              && r.warnings == Warnings(answer, r.sentenceResults)
              && r.errors == Errors(r.groundingScore)
    ensures 0.0 <= r.groundingScore <= 1.0
    ensures r.isValid <==> r.groundingScore >= MinGroundingConfidence
  {
    if answer == "" || chunks == [] then ValidationResult(false, 0.0, [], [EmptyWarning], [])
    else
      var results := ValidateAll(SplitSentences(answer), chunks, ContentIndex(chunks), cosine);
      var score := GroundingScore(results);
      ValidationResult(score >= MinGroundingConfidence, score, results, Warnings(answer, results), Errors(score))
  }

  /** Blank answers yield no sentences, hence score 0 and rejection. */
  lemma BlankAnswerInvalid(answer: string, chunks: seq<ContextChunk>, cosine: Cosine)
    requires AllSpace(answer)
    ensures var r := ValidateAnswer(answer, chunks, cosine);
            r.sentenceResults == [] && r.groundingScore == 0.0 && !r.isValid
  {
    SplitSentencesEmpty(answer);
  }

  // ---------------------------------------------------------------------------
  // The accept/reject gate

  /** Python's round-half-to-even of a real. */
  function RoundHalfEven(x: real): (n: int)
    ensures x - 0.5 <= n as real <= x + 0.5
    ensures n as real == x - 0.5 || n as real == x + 0.5 ==> n % 2 == 0
  {
    var f := x.Floor;
    var frac := x - f as real;
    if frac < 0.5 then f
    else if frac > 0.5 then f + 1
    else if f % 2 == 0 then f else f + 1
  }

  /** `f"{x:.0%}"` */
  function FormatPercent(x: real): string {
    IntToString(RoundHalfEven(x * 100.0)) + "%"
  }

  lemma ThresholdPercent()
    ensures FormatPercent(MinGroundingConfidence) == "70%"
  {
    assert RoundHalfEven(70.0) == 70;
    assert NatToString(7) == "7";
    assert NatToString(70) == NatToString(7) + [DigitChar(0)];
  }

  lemma ZeroPercent()
    ensures FormatPercent(0.0) == "0%"
  {
    assert RoundHalfEven(0.0) == 0;
    assert NatToString(0) == "0";
  }

  function LowScoreReason(score: real): string {
    "Answer grounding (" + FormatPercent(score) + ") below threshold (" + FormatPercent(MinGroundingConfidence) + ")"
  }

  /** `reject_if_ungrounded`: (should_reject, reason). */
  function RejectIfUngrounded(v: ValidationResult): (r: (bool, Option<string>))
    ensures !r.0 <==> v.errors == [] && v.groundingScore >= MinGroundingConfidence
    ensures r.0 <==> r.1.Some?
    ensures v.errors != [] ==> r.1 == Some(v.errors[0])
    ensures v.errors == [] && r.0 ==> r.1 == Some(LowScoreReason(v.groundingScore))
  {
    if v.errors != [] then (true, Some(v.errors[0]))
    else if v.groundingScore < MinGroundingConfidence then (true, Some(LowScoreReason(v.groundingScore)))
    else (false, None)
  }

  /** On a validated answer the gate rejects exactly the invalid ones: the
      "<50%" error only occurs below the acceptance threshold anyway. */
  lemma RejectIffInvalid(answer: string, chunks: seq<ContextChunk>, cosine: Cosine)
    ensures var v := ValidateAnswer(answer, chunks, cosine);
            RejectIfUngrounded(v).0 <==> !v.isValid
  {
    var v := ValidateAnswer(answer, chunks, cosine);
  }

  /** An empty answer is rejected with the threshold message at 0%. */
  lemma EmptyAnswerRejected(chunks: seq<ContextChunk>, cosine: Cosine)
    ensures RejectIfUngrounded(ValidateAnswer("", chunks, cosine))
            == (true, Some("Answer grounding (" + "0%" + ") below threshold (" + "70%" + ")"))
  {
    var v := ValidateAnswer("", chunks, cosine);
    assert v.errors == [] && v.groundingScore == 0.0;
    ZeroScoreReason();
  }

  /** The rejection message for a score of 0. */
  lemma ZeroScoreReason()
    ensures LowScoreReason(0.0) == "Answer grounding (" + "0%" + ") below threshold (" + "70%" + ")"
  {
    ThresholdPercent();
    ZeroPercent();
  }
}
