/** Multi-stage retrieval: query terms, keyword (BM25) and dense hits merged
    with max-normalisation, document/category/reliability filtering,
    structural re-ranking and the final sort. The chunk and document tables,
    the full-text index and the vector index are inputs. */
module Retrieval {
  import opened Wrappers
  import opened Text
  import opened Sorting
  import opened Dicts
  import opened ChunkModel
  import Config
  import Scoring

  /** Stopwords dropped from queries before keyword search. */
  const QueryStopwords: set<string> := {
    "the", "a", "an", "is", "are", "was", "were", "what", "how",
    "when", "where", "why", "who", "which", "can", "could", "would",
    "should", "do", "does", "did", "have", "has", "had", "be", "been",
    "being", "for", "to", "of", "in", "on", "at", "by", "with"
  }

  predicate IsQueryTerm(w: string) { w !in QueryStopwords && |w| > 2 }

  predicate NoUpper(s: string) { forall i :: 0 <= i < |s| ==> !IsUpperAlpha(s[i]) }

  lemma {:induction false} WordsKeepNoUpper(s: string)
    requires NoUpper(s)
    ensures forall i :: 0 <= i < |Words(s)| ==> NoUpper(Words(s)[i])
    decreases |s|
  {
    if |s| > 0 {
      if !IsWordChar(s[0]) {
        WordsKeepNoUpper(s[1..]);
      } else {
        var n := WordRun(s);
        WordsKeepNoUpper(s[n..]);
        assert Words(s) == [s[..n]] + Words(s[n..]);
      }
    }
  }

  /** `_extract_query_terms`: the words of the lower-cased query that are
      not stopwords and have more than two characters. */
  function ExtractQueryTerms(query: string): (r: seq<string>)
    ensures forall i :: 0 <= i < |r| ==>
              IsQueryTerm(r[i]) && |r[i]| > 0 && AllWordChars(r[i]) && NoUpper(r[i])
  {
    var words := Words(Lower(query));
    WordsKeepNoUpper(Lower(query));
    var r := Filter(IsQueryTerm, words);
    FilterExact(IsQueryTerm, words);
    SubseqMembers(r, words);
    r
  }

  /** The query terms are exactly the qualifying words, in query order and
      with their repetitions. */
  lemma QueryTermsExact(query: string)
    ensures IsSubseq(ExtractQueryTerms(query), Words(Lower(query)))
    ensures forall w :: w in Words(Lower(query)) && IsQueryTerm(w) ==>
              multiset(ExtractQueryTerms(query))[w] == multiset(Words(Lower(query)))[w]
    ensures forall w :: w in Words(Lower(query)) && !IsQueryTerm(w) ==> w !in ExtractQueryTerms(query)
  {
    FilterExact(IsQueryTerm, Words(Lower(query)));
  }

  // ---------------------------------------------------------------------------
  // Keyword search

  function Abs(x: real): real { if x < 0.0 then -x else x }

  /** The full-text index: given the match expression and a row limit, the
      (chunk id, bm25) rows in score order, or None when the query fails. */
  type FullTextIndex = (string, int) -> Option<seq<(string, real)>>

  /** The index rows with each score made non-negative. */
  function AbsRows(rows: seq<(string, real)>): (ps: seq<(string, real)>)
    ensures |ps| == |rows|
    ensures forall i :: 0 <= i < |rows| ==> ps[i] == (rows[i].0, Abs(rows[i].1))
  {
    seq(|rows|, i requires 0 <= i < |rows| => (rows[i].0, Abs(rows[i].1)))
  }

  /** `_bm25_search`: no terms give no hits; otherwise the terms are OR-ed
      into one match expression with a limit of twice the retrieval depth. A
      failed query gives no hits; otherwise each returned chunk id maps to
      the absolute value of its last row's score, as filling a dict does. */
  function Bm25Search(terms: seq<string>, fts: FullTextIndex): (r: Dict<string, real>)
    ensures WellFormed(r)
    ensures terms == [] ==> r == []
    ensures terms != [] && fts(Join(" OR ", terms), Config.TopKRetrieval * 2).None? ==> r == []
    ensures terms != [] && fts(Join(" OR ", terms), Config.TopKRetrieval * 2).Some? ==>
              forall k :: Get(r, k) == LastValue(AbsRows(fts(Join(" OR ", terms), Config.TopKRetrieval * 2).value), k)
    ensures forall i :: 0 <= i < |r| ==> r[i].1 >= 0.0
  {
    if |terms| == 0 then []
    else
      match fts(Join(" OR ", terms), Config.TopKRetrieval * 2)
      case None => []
      case Some(rows) =>
        var ps := AbsRows(rows);
        var r := FromPairs(ps);
        forall k ensures Get(r, k) == LastValue(ps, k) {
          FromPairsGet(ps, k);
        }
        r
  }

  // ---------------------------------------------------------------------------
  // Merging

  datatype Scores = Scores(bm25: real, dense: real)

  /** `max(d.values())` */
  function MaxValue(d: Dict<string, real>): (m: real)
    requires |d| > 0
    ensures forall i :: 0 <= i < |d| ==> d[i].1 <= m
    ensures exists i :: 0 <= i < |d| && d[i].1 == m
    decreases |d|
  {
    if |d| == 1 then d[0].1
    else
      var m := MaxValue(d[1..]);
      assert forall i :: 1 <= i < |d| ==> d[i] == d[1..][i - 1];
      if d[0].1 >= m then d[0].1 else m
  }

  /** The BM25 score of `k` divided by the largest one, 0 when the largest is
      not positive, and 0 for ids without a keyword hit. */
  function NormalizedBm25(bm25: Dict<string, real>, k: string): real {
    match Get(bm25, k)
    case None => 0.0
    case Some(s) => if MaxValue(bm25) > 0.0 then s / MaxValue(bm25) else 0.0
  }

  /** The dense loop: each hit sets its id's dense score, creating the entry
      with a zero BM25 score when needed; a later hit for an id wins. */
  function AddDense(m: map<string, Scores>, dense: seq<(string, real)>): (r: map<string, Scores>)
    ensures forall k :: k in r <==> k in m || k in Keys(dense)
    ensures forall k :: k in r ==> r[k].bm25 == (if k in m then m[k].bm25 else 0.0)
    ensures forall k :: k in r ==> r[k].dense == match LastValue(dense, k) case Some(v) => v case None => (if k in m then m[k].dense else 0.0)
    decreases |dense|
  {
    if |dense| == 0 then m
    else
      var init := dense[..|dense| - 1];
      var (id, s) := dense[|dense| - 1];
      var prev := AddDense(m, init);
      assert Keys(dense) == Keys(init) + [id];
      var entry := if id in prev then prev[id].(dense := s) else Scores(0.0, s);
      prev[id := entry]
  }

  /** `_merge_results` */
  function MergeResults(bm25: Dict<string, real>, dense: seq<(string, real)>): (r: map<string, Scores>)
    requires WellFormed(bm25)
    ensures forall k :: k in r <==> k in Keys(bm25) || k in Keys(dense)
    ensures forall k :: k in r ==> r[k].bm25 == NormalizedBm25(bm25, k)
    ensures forall k :: k in r ==> r[k].dense == LastValue(dense, k).GetOr(0.0)
  {
    var m0 := map k | k in Keys(bm25) :: Scores(NormalizedBm25(bm25, k), 0.0);
    AddDense(m0, dense)
  }

  lemma NormalizedBm25InUnitRange(bm25: Dict<string, real>, k: string)
    requires forall i :: 0 <= i < |bm25| ==> bm25[i].1 >= 0.0
    ensures 0.0 <= NormalizedBm25(bm25, k) <= 1.0
  {
    match Get(bm25, k)
    case None =>
    case Some(s) =>
      var mx := MaxValue(bm25);
      if mx > 0.0 {
        var i :| 0 <= i < |bm25| && bm25[i] == (k, s);
        DivideInUnitRange(s, mx);
      }
  }

  /** With non-negative keyword scores, every merged BM25 score lies in
      [0, 1]. */
  lemma MergedBm25InUnitRange(bm25: Dict<string, real>, dense: seq<(string, real)>)
    requires WellFormed(bm25)
    requires forall i :: 0 <= i < |bm25| ==> bm25[i].1 >= 0.0
    ensures var r := MergeResults(bm25, dense);
            forall k :: k in r ==> 0.0 <= r[k].bm25 <= 1.0
  {
    var r := MergeResults(bm25, dense);
    forall k | k in r ensures 0.0 <= r[k].bm25 <= 1.0 {
      NormalizedBm25InUnitRange(bm25, k);
    }
  }

  /** The best keyword hit gets a merged BM25 score of exactly 1 when its
      score is positive. */
  lemma MergedTopHitScoresOne(bm25: Dict<string, real>, dense: seq<(string, real)>, i: nat)
    requires WellFormed(bm25) && i < |bm25|
    requires bm25[i].1 == MaxValue(bm25) && MaxValue(bm25) > 0.0
    ensures var r := MergeResults(bm25, dense);
            bm25[i].0 in r && r[bm25[i].0].bm25 == 1.0
  {
    var mx := MaxValue(bm25);
    var k := bm25[i].0;
    assert k in Keys(bm25);
    GetInWellFormed(bm25, i);
    assert Get(bm25, k) == Some(mx);
    SelfQuotient(mx);
    assert NormalizedBm25(bm25, k) == 1.0;
    var r := MergeResults(bm25, dense);
    assert k in r;
  }

  lemma SelfQuotient(x: real)
    requires x != 0.0
    ensures x / x == 1.0
  {
  }

  lemma DivideInUnitRange(s: real, mx: real)
    requires 0.0 <= s <= mx && mx > 0.0
    ensures 0.0 <= s / mx <= 1.0
  {
  }

  lemma {:induction false} GetInWellFormed<V>(d: Dict<string, V>, i: nat)
    requires WellFormed(d) && i < |d|
    ensures Get(d, d[i].0) == Some(d[i].1)
    decreases |d|
  {
    if i > 0 {
      assert Keys(d) == [d[0].0] + Keys(d[1..]);
      assert d[0].0 != d[i].0;
      assert d[1..][i - 1] == d[i];
      GetInWellFormed(d[1..], i - 1);
    }
  }

  // ---------------------------------------------------------------------------
  // Filtering

  /** The constraints a candidate's document must meet: it exists, it is one
      of `documentIds` when those are given, its category is one of
      `categories` when those are given, and its reliability is at least
      `minReliability`. `None` and an empty list behave alike. */
  predicate Admissible(c: Chunk, docs: map<string, Document>, documentIds: seq<string>,
                       categories: seq<string>, minReliability: real)
  {
    && c.documentId in docs
    && (|documentIds| == 0 || docs[c.documentId].id in documentIds)
    && (|categories| == 0 || (docs[c.documentId].category.Some? && docs[c.documentId].category.value in categories))
    && !(docs[c.documentId].reliabilityScore < minReliability)
  }

  function FilterRows(candidates: map<string, Scores>, rows: seq<Chunk>, docs: map<string, Document>,
                      documentIds: seq<string>, categories: seq<string>, minReliability: real): (r: map<string, Scores>)
    ensures forall k :: k in r ==> k in candidates && r[k] == candidates[k]
    ensures forall k :: k in r <==>
              (k in candidates &&
               exists i :: 0 <= i < |rows| && rows[i].id == k && Admissible(rows[i], docs, documentIds, categories, minReliability))
    decreases |rows|
  {
    if |rows| == 0 then map[]
    else
      var init := rows[..|rows| - 1];
      var c := rows[|rows| - 1];
      var m := FilterRows(candidates, init, docs, documentIds, categories, minReliability);
      assert forall i :: 0 <= i < |init| ==> rows[i] == init[i];
      if c.id in candidates && Admissible(c, docs, documentIds, categories, minReliability) then m[c.id := candidates[c.id]]
      else m
  }

  /** `_filter_candidates`: the candidates some chunk row of which passes the
      document constraints, each with its scores unchanged. */
  function FilterCandidates(candidates: map<string, Scores>, documentIds: seq<string>, categories: seq<string>,
                            minReliability: real, chunks: seq<Chunk>, docs: map<string, Document>): (r: map<string, Scores>)
    ensures forall k :: k in r ==> k in candidates && r[k] == candidates[k]
    ensures forall k :: k in r <==>
              (k in candidates &&
               exists i :: 0 <= i < |chunks| && chunks[i].id == k && Admissible(chunks[i], docs, documentIds, categories, minReliability))
  {
    if |candidates| == 0 then map[]
    else FilterRows(candidates, chunks, docs, documentIds, categories, minReliability)
  }

  // ---------------------------------------------------------------------------
  // Structural re-ranking

  datatype RetrievedChunk = RetrievedChunk(
    chunkId: string,
    content: string,
    documentId: string,
    documentName: string,
    pageNumber: Option<int>,
    sectionTitle: Option<string>,
    chunkType: string,
    bm25Score: real,
    denseScore: real,
    structuralScore: real,
    finalScore: real,
    confidenceWeight: real)

  /** How many of the terms occur in the text (counting repeated terms). */
  function CountContained(terms: seq<string>, text: string): (n: nat)
    ensures n <= |terms|
    ensures n == |terms| <==> forall i :: 0 <= i < |terms| ==> Contains(text, terms[i])
    ensures n == 0 <==> forall i :: 0 <= i < |terms| ==> !Contains(text, terms[i])
    decreases |terms|
  {
    if |terms| == 0 then 0
    else
      var rest := CountContained(terms[1..], text);
      assert forall i :: 1 <= i < |terms| ==> terms[i] == terms[1..][i - 1];
      (if Contains(text, terms[0]) then 1 else 0) + rest
  }

  /** A text that contains every term another text contains has at least
      as many of the terms. */
  lemma {:induction false} CountContainedMonotone(terms: seq<string>, a: string, b: string)
    requires forall i :: 0 <= i < |terms| && Contains(a, terms[i]) ==> Contains(b, terms[i])
    ensures CountContained(terms, a) <= CountContained(terms, b)
    decreases |terms|
  {
    if |terms| > 0 {
      assert forall i :: 1 <= i < |terms| ==> terms[i] == terms[1..][i - 1];
      CountContainedMonotone(terms[1..], a, b);
    }
  }

  /** The share of the query terms that occur in the text: the count over
      the number of terms, or over 1 when there are none. */
  function TermCoverage(terms: seq<string>, text: string): (r: real)
    ensures r == (CountContained(terms, text) as real) / ((if |terms| > 1 then |terms| else 1) as real)
    ensures 0.0 <= r <= 1.0
    ensures r == 1.0 <==> |terms| > 0 && CountContained(terms, text) == |terms|
    ensures r == 0.0 <==> CountContained(terms, text) == 0
  {
    var n := CountContained(terms, text);
    var d := if |terms| > 1 then |terms| else 1;
    ShareFacts(n, d);
    n as real / d as real
  }

  lemma ShareFacts(n: nat, d: nat)
    requires 0 < d && n <= d
    ensures 0.0 <= n as real / d as real <= 1.0
    ensures n as real / d as real == 1.0 <==> n == d
    ensures n as real / d as real == 0.0 <==> n == 0
  {
    var q := n as real / d as real;
    assert q * d as real == n as real;
  }

  /** 0.5 for the whole query occurring in the chunk, plus 0.3 times the
      term coverage, plus 0.2 for a heading. */
  function StructuralScore(query: string, terms: seq<string>, content: string, chunkType: string): (s: real)
    ensures s == (if Contains(Lower(content), Lower(query)) then 0.5 else 0.0)
                 + 0.3 * TermCoverage(terms, Lower(content))
                 + (if chunkType == "heading" then 0.2 else 0.0)
    ensures 0.0 <= s <= 1.0
    ensures Contains(Lower(content), Lower(query)) ==> s >= 0.5
    ensures !Contains(Lower(content), Lower(query)) ==> s <= 0.5
    ensures chunkType == "heading" ==> s >= 0.2
    ensures chunkType != "heading" ==> s <= 0.8
    ensures s == 1.0 <==> Contains(Lower(content), Lower(query)) && chunkType == "heading"
                          && TermCoverage(terms, Lower(content)) == 1.0
  {
    var contentLower := Lower(content);
    var exact := if Contains(contentLower, Lower(query)) then 0.5 else 0.0;
    var heading := if chunkType == "heading" then 0.2 else 0.0;
    0.0 + exact + TermCoverage(terms, contentLower) * 0.3 + heading
  }

  /** A chunk of the same type that contains the whole query whenever the
      other does, and every query term the other contains, scores at least
      as high. */
  lemma StructuralScoreMonotone(query: string, terms: seq<string>, a: string, b: string, chunkType: string)
    requires Contains(Lower(a), Lower(query)) ==> Contains(Lower(b), Lower(query))
    requires forall i :: 0 <= i < |terms| && Contains(Lower(a), terms[i]) ==> Contains(Lower(b), terms[i])
    ensures StructuralScore(query, terms, a, chunkType) <= StructuralScore(query, terms, b, chunkType)
  {
    CountContainedMonotone(terms, Lower(a), Lower(b));
    var d := (if |terms| > 1 then |terms| else 1) as real;
    var na := CountContained(terms, Lower(a)) as real;
    var nb := CountContained(terms, Lower(b)) as real;
    Scoring.DivMonotone(na, nb, d);
  }

  /** The document's reliability, 1.0 when the chunk has no document. */
  function Reliability(doc: Option<Document>): real {
    if doc.Some? then doc.value.reliabilityScore else 1.0
  }

  function WeightedScore(bm25: real, dense: real, structural: real): real {
    Config.Bm25Weight * bm25 + Config.DenseWeight * dense + Config.StructuralWeight * structural
  }

  /** With component scores in [0, 1] and a non-negative boost, the fused
      score lies between 0 and the boost. */
  lemma FusedScoreBounds(bm25: real, dense: real, structural: real, boost: real)
    requires 0.0 <= bm25 <= 1.0 && 0.0 <= dense <= 1.0 && 0.0 <= structural <= 1.0
    requires boost >= 0.0
    ensures 0.0 <= WeightedScore(bm25, dense, structural) <= 1.0
    ensures 0.0 <= WeightedScore(bm25, dense, structural) * boost <= boost
  {
    var w := WeightedScore(bm25, dense, structural);
    assert w * boost <= 1.0 * boost by {
      assert (1.0 - w) * boost >= 0.0 by { NonNegProduct(1.0 - w, boost); }
    }
    NonNegProduct(w, boost);
  }

  lemma NonNegProduct(a: real, b: real)
    requires a >= 0.0 && b >= 0.0
    ensures a * b >= 0.0
  {
  }

  /** The chunk's document row, if there is one. */
  function DocOf(c: Chunk, docs: map<string, Document>): Option<Document> {
    if c.documentId in docs then Some(docs[c.documentId]) else None
  }

  /** The document's reliability times the chunk's confidence weight. */
  function Boost(c: Chunk, docs: map<string, Document>): real {
    Reliability(DocOf(c, docs)) * c.confidenceWeight
  }

  function RerankOne(c: Chunk, scores: Scores, query: string, terms: seq<string>,
                     docs: map<string, Document>): (r: RetrievedChunk)
    ensures r.chunkId == c.id && r.content == c.content && r.documentId == c.documentId
    ensures r.bm25Score == scores.bm25 && r.denseScore == scores.dense
    ensures r.pageNumber == c.pageNumber && r.sectionTitle == c.sectionTitle && r.chunkType == c.chunkType
    ensures r.structuralScore == StructuralScore(query, terms, c.content, c.chunkType)
    ensures r.confidenceWeight == c.confidenceWeight
    ensures 0.0 <= r.structuralScore <= 1.0
    ensures r.finalScore == WeightedScore(r.bm25Score, r.denseScore, r.structuralScore) * Boost(c, docs)
    ensures r.documentName == if c.documentId in docs then docs[c.documentId].filename else "Unknown"
  {
    var doc := DocOf(c, docs);
    var structural := StructuralScore(query, terms, c.content, c.chunkType);
    var finalScore := WeightedScore(scores.bm25, scores.dense, structural) * Boost(c, docs);
    RetrievedChunk(
      c.id, c.content, c.documentId,
      if doc.Some? then doc.value.filename else "Unknown",
      c.pageNumber, c.sectionTitle, c.chunkType,
      scores.bm25, scores.dense, structural, finalScore, c.confidenceWeight)
  }

  function IsCandidate(candidates: map<string, Scores>): Chunk -> bool {
    (c: Chunk) => c.id in candidates
  }

  /** `_structural_rerank`: one result per chunk row whose id is a
      candidate, in table order. */
  function StructuralRerank(candidates: map<string, Scores>, query: string, terms: seq<string>,
                            chunks: seq<Chunk>, docs: map<string, Document>): (r: seq<RetrievedChunk>)
    ensures var rows := Filter(IsCandidate(candidates), chunks);
            && |r| == |rows|
            && forall i :: 0 <= i < |r| ==> r[i] == RerankOne(rows[i], candidates[rows[i].id], query, terms, docs)
    ensures forall i :: 0 <= i < |r| ==> r[i].chunkId in candidates
  {
    if |candidates| == 0 then
      assert Filter(IsCandidate(candidates), chunks) == [] by {
        FilterNone(IsCandidate(candidates), chunks);
      }
      []
    else
      var rows := Filter(IsCandidate(candidates), chunks);
      seq(|rows|, i requires 0 <= i < |rows| => RerankOne(rows[i], candidates[rows[i].id], query, terms, docs))
  }

  // ---------------------------------------------------------------------------
  // The pipeline

  function FinalScoreKey(): RetrievedChunk -> real { (c: RetrievedChunk) => c.finalScore }

  /** Filtering runs unless there are no document ids, no categories and the
      reliability floor is not positive. */
  predicate FilterApplies(documentIds: seq<string>, categories: seq<string>, minReliability: real) {
    |documentIds| > 0 || |categories| > 0 || minReliability > 0.0
  }

  function Candidates(query: string, documentIds: seq<string>, categories: seq<string>, minReliability: real,
                      chunks: seq<Chunk>, docs: map<string, Document>, fts: FullTextIndex,
                      denseHits: seq<(string, real)>): map<string, Scores>
  {
    var terms := ExtractQueryTerms(query);
    var merged := MergeResults(Bm25Search(terms, fts), denseHits);
    if FilterApplies(documentIds, categories, minReliability) then
      FilterCandidates(merged, documentIds, categories, minReliability, chunks, docs)
    else merged
  }

  /** The re-ranked candidates for a query, before the final sort. */
  function Reranked(query: string, documentIds: seq<string>, categories: seq<string>, minReliability: real,
                    chunks: seq<Chunk>, docs: map<string, Document>, fts: FullTextIndex,
                    denseHits: seq<(string, real)>): seq<RetrievedChunk>
  {
    StructuralRerank(Candidates(query, documentIds, categories, minReliability, chunks, docs, fts, denseHits),
                     query, ExtractQueryTerms(query), chunks, docs)
  }

  /** `sorted(all, key=lambda x: x.final_score, reverse=True)[:k]` */
  function TopByFinalScore(all: seq<RetrievedChunk>, k: int): (r: seq<RetrievedChunk>)
    ensures k >= 0 ==> |r| == if k < |all| then k else |all|
    ensures forall i, j :: 0 <= i < j < |r| ==> r[i].finalScore >= r[j].finalScore
    ensures forall i :: 0 <= i < |r| ==> r[i] in all
    ensures multiset(r) <= multiset(all)
    ensures forall x :: x in multiset(all) - multiset(r) ==>
              forall i :: 0 <= i < |r| ==> x.finalScore <= r[i].finalScore
  {
    var r := TopByKey(all, FinalScoreKey(), k);
    assert forall i, j :: 0 <= i < j < |r| ==> FinalScoreKey()(r[i]) >= FinalScoreKey()(r[j]);
    r
  }

  /** `retrieve`: the re-ranked candidates, stably sorted by final score,
      highest first, cut to `topK`: `min(topK, n)` of them, and none left
      out scores above one kept. `denseHits` are the vector index's hits for
      the query. */
  function Retrieve(query: string, documentIds: seq<string>, categories: seq<string>, minReliability: real,
                    topK: int, chunks: seq<Chunk>, docs: map<string, Document>, fts: FullTextIndex,
                    denseHits: seq<(string, real)>): (r: seq<RetrievedChunk>)
    ensures topK >= 0 ==> |r| <= topK
    ensures var n := |Reranked(query, documentIds, categories, minReliability, chunks, docs, fts, denseHits)|;
            topK >= 0 ==> |r| == if topK < n then topK else n
    ensures forall i, j :: 0 <= i < j < |r| ==> r[i].finalScore >= r[j].finalScore
    ensures forall i :: 0 <= i < |r| ==>
              r[i] in Reranked(query, documentIds, categories, minReliability, chunks, docs, fts, denseHits)
    ensures var all := Reranked(query, documentIds, categories, minReliability, chunks, docs, fts, denseHits);
            && multiset(r) <= multiset(all)
            && forall x :: x in multiset(all) - multiset(r) ==>
                 forall i :: 0 <= i < |r| ==> x.finalScore <= r[i].finalScore
  {
    TopByFinalScore(Reranked(query, documentIds, categories, minReliability, chunks, docs, fts, denseHits), topK)
  }

  /** When filtering applies, every result's chunk id belongs to a chunk row
      whose document exists and meets every constraint. */
  lemma RetrieveRespectsFilters(query: string, documentIds: seq<string>, categories: seq<string>, minReliability: real,
                                topK: int, chunks: seq<Chunk>, docs: map<string, Document>, fts: FullTextIndex,
                                denseHits: seq<(string, real)>)
    requires FilterApplies(documentIds, categories, minReliability)
    ensures var r := Retrieve(query, documentIds, categories, minReliability, topK, chunks, docs, fts, denseHits);
            forall i :: 0 <= i < |r| ==>
              exists j :: 0 <= j < |chunks| && chunks[j].id == r[i].chunkId
                          && Admissible(chunks[j], docs, documentIds, categories, minReliability)
  {
    var candidates := Candidates(query, documentIds, categories, minReliability, chunks, docs, fts, denseHits);
    var results := Reranked(query, documentIds, categories, minReliability, chunks, docs, fts, denseHits);
    var r := Retrieve(query, documentIds, categories, minReliability, topK, chunks, docs, fts, denseHits);
    forall i | 0 <= i < |r|
      ensures exists j :: 0 <= j < |chunks| && chunks[j].id == r[i].chunkId
                          && Admissible(chunks[j], docs, documentIds, categories, minReliability)
    {
      assert r[i] in results;
      assert r[i].chunkId in candidates;
    }
  }

  /** Ties in the final score keep table order: among the results with any
      one final score, `retrieve` returns a leading part of them in the
      order of the re-ranked list, and all of them when nothing is cut. */
  lemma RetrieveTiesKeepTableOrder(query: string, documentIds: seq<string>, categories: seq<string>,
                                   minReliability: real, topK: int, chunks: seq<Chunk>,
                                   docs: map<string, Document>, fts: FullTextIndex,
                                   denseHits: seq<(string, real)>, score: real)
    ensures var r := Retrieve(query, documentIds, categories, minReliability, topK, chunks, docs, fts, denseHits);
            var all := Reranked(query, documentIds, categories, minReliability, chunks, docs, fts, denseHits);
            && Filter(KeyIs(FinalScoreKey(), score), r) <= Filter(KeyIs(FinalScoreKey(), score), all)
            && (topK >= |all| ==> Filter(KeyIs(FinalScoreKey(), score), r) == Filter(KeyIs(FinalScoreKey(), score), all))
  {
    var all := Reranked(query, documentIds, categories, minReliability, chunks, docs, fts, denseHits);
    assert TopByFinalScore(all, topK) == TopByKey(all, FinalScoreKey(), topK);
    TopByKeyTiesKeepOrder(all, FinalScoreKey(), topK, score);
  }
}
