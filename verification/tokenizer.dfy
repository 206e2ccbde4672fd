/** Tokenizer utilities: word tokens, n-grams, frequency-ranked key phrases
    and the four-characters-per-token estimate. */
module Tokenizer {
  import opened Text
  import opened Sorting

  /** Common English stopwords used for keyword and key-phrase extraction. */
  const Stopwords: set<string> := {
    "a", "an", "and", "are", "as", "at", "be", "been", "being", "but", "by",
    "can", "could", "did", "do", "does", "doing", "done", "for", "from",
    "had", "has", "have", "having", "he", "her", "here", "hers", "herself",
    "him", "himself", "his", "how", "i", "if", "in", "into", "is", "it",
    "its", "itself", "just", "me", "might", "more", "most", "must", "my",
    "myself", "no", "nor", "not", "now", "of", "on", "only", "or", "other",
    "our", "ours", "ourselves", "out", "over", "own", "same", "she", "should",
    "so", "some", "such", "than", "that", "the", "their", "theirs", "them",
    "themselves", "then", "there", "these", "they", "this", "those", "through",
    "to", "too", "under", "until", "up", "very", "was", "we", "were", "what",
    "when", "where", "which", "while", "who", "whom", "why", "will", "with",
    "would", "you", "your", "yours", "yourself", "yourselves"
  }

  predicate IsTokenChar(c: char) { IsLowerAlpha(c) || IsDigit(c) }

  /** A token: a non-empty run of lower-case ASCII letters and digits. */
  predicate IsToken(w: string) { |w| > 0 && forall i :: 0 <= i < |w| ==> IsTokenChar(w[i]) }

  /** `tokenize`: the regex `\b[a-z0-9]+\b` over the lower-cased text can only
      match a whole word run, and only one made of `[a-z0-9]`, so the tokens
      are the word runs of the lower-cased text that contain no underscore. */
  function Tokenize(text: string): (r: seq<string>)
    ensures forall i :: 0 <= i < |r| ==> IsToken(r[i])
    ensures |r| <= |Words(Lower(text))|
  {
    Filter(IsToken, Words(Lower(text)))
  }

  /** Tokenizing does not depend on letter case. */
  lemma TokenizeIgnoresCase(text: string)
    ensures Tokenize(Upper(text)) == Tokenize(text)
    ensures Tokenize(Lower(text)) == Tokenize(text)
  {
    assert Lower(Upper(text)) == Lower(text);
    assert Lower(Lower(text)) == Lower(text);
  }

  // --- re-tokenizing space-joined tokens ---

  predicate TokenOrSpace(s: string) {
    forall i :: 0 <= i < |s| ==> IsTokenChar(s[i]) || s[i] == ' '
  }

  lemma {:induction false} JoinedTokensChars(toks: seq<string>)
    requires forall i :: 0 <= i < |toks| ==> IsToken(toks[i])
    ensures TokenOrSpace(Join(" ", toks))
    decreases |toks|
  {
    if |toks| > 1 {
      JoinedTokensChars(toks[1..]);
      var rest := Join(" ", toks[1..]);
      var j := toks[0] + " " + rest;
      assert Join(" ", toks) == j;
      forall i | 0 <= i < |j| ensures IsTokenChar(j[i]) || j[i] == ' ' {
        if i < |toks[0]| {
          assert j[i] == toks[0][i];
        } else if i > |toks[0]| {
          assert j[i] == rest[i - |toks[0]| - 1];
        }
      }
    }
  }

  lemma LowerFixesTokenText(s: string)
    requires TokenOrSpace(s)
    ensures Lower(s) == s
  {
  }

  lemma {:induction false} WordRunOfPrefix(s: string, n: nat)
    requires n <= |s| && AllWordChars(s[..n])
    requires n == |s| || !IsWordChar(s[n])
    ensures WordRun(s) == n
    decreases n
  {
    if n > 0 {
      assert s[1..][..n - 1] == s[1..n];
      assert forall i :: 0 <= i < n - 1 ==> s[1..n][i] == s[..n][i + 1];
      WordRunOfPrefix(s[1..], n - 1);
    }
  }

  lemma {:induction false} WordsOfJoinedTokens(toks: seq<string>)
    requires forall i :: 0 <= i < |toks| ==> IsToken(toks[i])
    ensures Words(Join(" ", toks)) == toks
    decreases |toks|
  {
    if |toks| == 1 {
      var t := toks[0];
      assert t[..|t|] == t;
      WordRunOfPrefix(t, |t|);
      assert t[|t|..] == "";
    } else if |toks| > 1 {
      var t := toks[0];
      var rest := Join(" ", toks[1..]);
      var s := t + " " + rest;
      assert Join(" ", toks) == s;
      assert s[..|t|] == t;
      WordRunOfPrefix(s, |t|);
      assert s[|t|..] == " " + rest;
      assert (" " + rest)[1..] == rest;
      WordsOfJoinedTokens(toks[1..]);
      assert toks == [t] + toks[1..];
    }
  }

  /** Tokenizing the tokens joined by single spaces gives the tokens back. */
  lemma TokenizeJoinedTokens(toks: seq<string>)
    requires forall i :: 0 <= i < |toks| ==> IsToken(toks[i])
    ensures Tokenize(Join(" ", toks)) == toks
  {
    JoinedTokensChars(toks);
    LowerFixesTokenText(Join(" ", toks));
    WordsOfJoinedTokens(toks);
    FilterAll(IsToken, toks);
  }

  // --- stopword removal ---

  predicate IsContentWord(t: string) { t !in Stopwords && |t| > 2 }

  /** `tokenize_without_stopwords` */
  function TokenizeWithoutStopwords(text: string): (r: seq<string>)
    ensures forall i :: 0 <= i < |r| ==> IsToken(r[i]) && IsContentWord(r[i])
  {
    var tokens := Tokenize(text);
    var r := Filter(IsContentWord, tokens);
    assert forall i :: 0 <= i < |r| ==> r[i] in tokens by {
      FilterExact(IsContentWord, tokens);
      SubseqMembers(r, tokens);
    }
    r
  }

  /** Stopword removal keeps exactly the content words, in order and with
      their repetitions, and drops every other token. */
  lemma ContentWordsExact(text: string)
    ensures IsSubseq(TokenizeWithoutStopwords(text), Tokenize(text))
    ensures forall t :: t in Tokenize(text) && IsContentWord(t) ==>
              multiset(TokenizeWithoutStopwords(text))[t] == multiset(Tokenize(text))[t]
    ensures forall t :: t in Tokenize(text) && !IsContentWord(t) ==> t !in TokenizeWithoutStopwords(text)
  {
    FilterExact(IsContentWord, Tokenize(text));
  }

  // --- n-grams ---

  /** `" ".join(tokens[i:i+n])` */
  function Window(tokens: seq<string>, i: int, n: int): (r: string)
    ensures 0 <= i && 1 <= n && i + n <= |tokens| ==> r == Join(" ", tokens[i..i + n])
  {
    Join(" ", PySlice(tokens, i, i + n))
  }

  /** The space-joined windows of `n` consecutive tokens (`tokens[i:i+n]`). */
  function Ngrams(tokens: seq<string>, n: int): (r: seq<string>)
    ensures |tokens| < n ==> r == []
    ensures 1 <= n <= |tokens| ==> |r| == |tokens| - n + 1
    ensures 1 <= n <= |tokens| ==> forall i :: 0 <= i < |r| ==> r[i] == Join(" ", tokens[i..i + n])
  {
    if |tokens| < n then []
    else seq(|tokens| - n + 1, i requires 0 <= i < |tokens| - n + 1 => Window(tokens, i, n))
  }

  /** `extract_ngrams` */
  function ExtractNgrams(text: string, n: int): seq<string> {
    Ngrams(Tokenize(text), n)
  }

  /** Every n-gram splits on spaces into exactly the window of tokens it was
      built from. */
  lemma NgramWords(tokens: seq<string>, n: int, i: nat)
    requires forall k :: 0 <= k < |tokens| ==> IsToken(tokens[k])
    requires 1 <= n <= |tokens| && i < |tokens| - n + 1
    ensures Split(Ngrams(tokens, n)[i], ' ') == tokens[i..i + n]
  {
    var w := tokens[i..i + n];
    assert forall k :: 0 <= k < |w| ==> ' ' !in w[k] by {
      forall k | 0 <= k < |w| ensures ' ' !in w[k] {
        assert IsToken(tokens[i + k]);
      }
    }
    assert " " == [' '];
    SplitJoin(w, ' ');
  }

  // --- key phrases ---

  function FirstWord(phrase: string): string { Split(phrase, ' ')[0] }

  function LastWord(phrase: string): string {
    var words := Split(phrase, ' ');
    words[|words| - 1]
  }

  /** Neither the first nor the last word of the phrase is a stopword. */
  predicate HasContentBoundaries(phrase: string) {
    FirstWord(phrase) !in Stopwords && LastWord(phrase) !in Stopwords
  }

  /** Bigrams then trigrams, keeping those without a stopword at either end. */
  function CandidatePhrases(text: string): (r: seq<string>)
    ensures forall i :: 0 <= i < |r| ==> HasContentBoundaries(r[i])
  {
    Filter(HasContentBoundaries, ExtractNgrams(text, 2) + ExtractNgrams(text, 3))
  }

  function Count(s: seq<string>, x: string): nat { multiset(s)[x] }

  function CountKey(s: seq<string>): string -> real {
    x => Count(s, x) as real
  }

  /** `extract_key_phrases`: the distinct candidate phrases (in the
      first-occurrence order of a dict), stably sorted by frequency, the
      `maxPhrases` most frequent first: that many of them, or all when
      there are fewer. */
  function ExtractKeyPhrases(text: string, maxPhrases: int): (r: seq<string>)
    ensures NoDuplicates(r)
    ensures forall i :: 0 <= i < |r| ==> r[i] in CandidatePhrases(text) && HasContentBoundaries(r[i])
    ensures forall i, j :: 0 <= i < j < |r| ==>
              Count(CandidatePhrases(text), r[i]) >= Count(CandidatePhrases(text), r[j])
    ensures maxPhrases >= 0 ==> |r| <= maxPhrases
    ensures var n := |Distinct(CandidatePhrases(text))|;
            maxPhrases >= 0 ==> |r| == if maxPhrases < n then maxPhrases else n
  {
    var phrases := CandidatePhrases(text);
    var r := TopDistinct(phrases, CountKey(phrases), maxPhrases);
    assert forall i, j :: 0 <= i < j < |r| ==> CountKey(phrases)(r[i]) >= CountKey(phrases)(r[j]);
    r
  }

  /** No candidate phrase left out of the result is more frequent than one
      kept, and when the limit covers the distinct candidates every phrase
      is kept. */
  lemma KeyPhrasesAreMostFrequent(text: string, maxPhrases: int)
    ensures var r := ExtractKeyPhrases(text, maxPhrases);
            var phrases := CandidatePhrases(text);
            forall p, i :: p in phrases && p !in r && 0 <= i < |r| ==> Count(phrases, r[i]) >= Count(phrases, p)
    ensures maxPhrases >= |CandidatePhrases(text)| ==>
              forall p :: p in CandidatePhrases(text) ==> p in ExtractKeyPhrases(text, maxPhrases)
    ensures maxPhrases >= |Distinct(CandidatePhrases(text))| ==>
              forall p :: p in CandidatePhrases(text) ==> p in ExtractKeyPhrases(text, maxPhrases)
  {
    var phrases := CandidatePhrases(text);
    var r := ExtractKeyPhrases(text, maxPhrases);
    assert r == TopDistinct(phrases, CountKey(phrases), maxPhrases);
    forall p, i | p in phrases && p !in r && 0 <= i < |r|
      ensures Count(phrases, r[i]) >= Count(phrases, p)
    {
      TopDistinctIsTop(phrases, CountKey(phrases), maxPhrases, p, i);
    }
  }

  /** Among equally frequent phrases, those kept are the ones that first
      occur earliest in the text, in that order. */
  lemma KeyPhraseTiesKeepFirstOccurrences(text: string, maxPhrases: int, n: nat)
    ensures var phrases := CandidatePhrases(text);
            Filter(KeyIs(CountKey(phrases), n as real), ExtractKeyPhrases(text, maxPhrases))
            <= Filter(KeyIs(CountKey(phrases), n as real), Distinct(phrases))
  {
    var phrases := CandidatePhrases(text);
    assert ExtractKeyPhrases(text, maxPhrases) == TopDistinct(phrases, CountKey(phrases), maxPhrases);
    TopDistinctTiesKeepOrder(phrases, CountKey(phrases), maxPhrases, n as real);
  }

  // --- token estimates ---

  /** `estimate_tokens`: about four characters per token. */
  function EstimateTokens(text: string): (r: nat)
    ensures 4 * r <= |text| < 4 * r + 4
  {
    |text| / 4
  }

  /** `truncate_to_tokens`: text within `4 * maxTokens` characters is kept;
      otherwise it is cut to that many characters, and then either back to
      the last period when that lies beyond 80% of the cut, or extended by
      an ellipsis. */
  function TruncateToTokens(text: string, maxTokens: int): (r: string)
    ensures |text| <= 4 * maxTokens ==> r == text
    ensures maxTokens >= 0 && |text| > 4 * maxTokens ==>
              || (r == text[..4 * maxTokens] + "..."
                  && forall i :: 0 <= i < 4 * maxTokens && 5 * i > 16 * maxTokens ==> text[i] != '.')
              || (0 < |r| <= 4 * maxTokens && r == text[..|r|] && r[|r| - 1] == '.'
                  && 5 * (|r| - 1) > 16 * maxTokens
                  && forall i :: |r| <= i < 4 * maxTokens ==> text[i] != '.')
  {
    var maxChars := maxTokens * 4;
    if |text| <= maxChars then text
    else
      var truncated := PyTake(text, maxChars);
      var lastPeriod := LastIndexOf(truncated, '.');
      if lastPeriod as real > maxChars as real * 0.8 then PyTake(truncated, lastPeriod + 1)
      else truncated + "..."
  }

  /** A truncated text is estimated at no more tokens than the limit. */
  lemma TruncateFitsBudget(text: string, maxTokens: nat)
    ensures EstimateTokens(TruncateToTokens(text, maxTokens)) <= maxTokens
  {
  }
}
