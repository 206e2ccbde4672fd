/** The decision flow of the two question endpoints: when they answer,
    when they decline, and how an answer is assembled from the retrieved
    chunks, the context, the generated text and its validation. The
    database, the language model and the embedding model are parameters. */
module Query {
  import opened Wrappers
  import opened Text
  import opened ChunkModel
  import opened Retrieval
  import opened Context
  import opened Validation
  import opened Extractive
  import Config

  /** A question request after schema validation. Absent document ids and
      categories are empty lists. */
  datatype QueryRequest = QueryRequest(
    question: string,
    documentIds: seq<string>,
    categories: seq<string>,
    minReliability: real,
    topK: int,
    requireGrounding: bool)

  /** The field constraints the request schema enforces before a handler runs. */
  predicate ValidRequest(q: QueryRequest) {
    3 <= |q.question| <= 2000 && 0.0 <= q.minReliability <= 1.0 && 1 <= q.topK <= 20
  }

  /** What retrieval reads: the chunk table, the document table, the
      full-text index and the vector index's hits for the question. */
  datatype Corpus = Corpus(
    chunks: seq<Chunk>,
    docs: map<string, Document>,
    fts: FullTextIndex,
    denseHits: seq<(string, real)>)

  datatype SourceCitation = SourceCitation(
    chunkId: string,
    documentName: string,
    pageNumber: Option<int>,
    section: Option<string>,
    excerpt: string,
    relevanceScore: real,
    matchType: string)

  datatype GroundedSentence = GroundedSentence(
    text: string,
    citations: seq<SourceCitation>,
    confidence: real,
    isGrounded: bool)

  datatype QueryResponse =
    | Answer(
        answer: string,
        groundedSentences: seq<GroundedSentence>,
        overallConfidence: real,
        groundingScore: real,
        sourcesUsed: seq<SourceCitation>,
        totalSourcesRetrieved: nat,
        isGrounded: bool,
        warning: Option<string>)
    | NoAnswer(
        reason: string,
        suggestions: seq<string>,
        partialInfo: Option<string>,
        sourcesChecked: nat)

  /** The language model: prompt in, generated text out. */
  type Llm = string -> string

  /** The answer schema's bounds on its two scores. */
  predicate ScoresInRange(r: QueryResponse) {
    r.Answer? ==> 0.0 <= r.overallConfidence <= 1.0 && 0.0 <= r.groundingScore <= 1.0
  }

  // ---------------------------------------------------------------------------
  // Fixed texts

  const NoDocumentsReason: string := "No relevant documents found"
  const NoDocumentsSuggestions: seq<string> :=
    ["Try rephrasing your question", "Upload relevant documents first", "Broaden your search categories"]
  const NoContextReason: string := "Retrieved content too short or irrelevant"
  const NoContextSuggestions: seq<string> := ["Provide more detailed documents"]
  const RejectedReason: string := "Answer failed grounding validation"
  const RejectedSuggestions: seq<string> :=
    ["The sources may not contain this information", "Try asking a more specific question"]
  const ExtractiveNoDocumentsSuggestions: seq<string> := ["Upload relevant documents"]
  const NotExtractableReason: string := "No extractable answer found in sources"
  const NotExtractableSuggestions: seq<string> := ["The information may not be in the documents"]
  const UnverifiedQuotesWarning: string := "Some quotes could not be verified"

  // ---------------------------------------------------------------------------
  // Pipeline stages

  /** Retrieval for a request: twice the requested number of chunks, or all
      of the re-ranked candidates when there are fewer, highest final score
      first, none left out scoring above one kept. */
  function RetrieveFor(req: QueryRequest, corpus: Corpus): (r: seq<RetrievedChunk>)
    ensures req.topK >= 0 ==> |r| <= 2 * req.topK
    ensures var all := Reranked(req.question, req.documentIds, req.categories, req.minReliability,
                                corpus.chunks, corpus.docs, corpus.fts, corpus.denseHits);
            && (req.topK >= 0 ==> |r| == if req.topK * 2 < |all| then req.topK * 2 else |all|)
            && (forall i, j :: 0 <= i < j < |r| ==> r[i].finalScore >= r[j].finalScore)
            && multiset(r) <= multiset(all)
            && (forall x :: x in multiset(all) - multiset(r) ==>
                  forall i :: 0 <= i < |r| ==> x.finalScore <= r[i].finalScore)
  {
    Retrieve(req.question, req.documentIds, req.categories, req.minReliability, req.topK * 2,
             corpus.chunks, corpus.docs, corpus.fts, corpus.denseHits)
  }

  /** The context the generative endpoint builds, with a 4000-token budget. */
  function ContextFor(chunks: seq<RetrievedChunk>): BuiltContext {
    BuildContext(chunks, DefaultMaxTokens)
  }

  /** The answer text generated from the grounded prompt. */
  function Generate(req: QueryRequest, built: BuiltContext, llm: Llm): string {
    llm(BuildGroundedPrompt(built.text, req.question, built.chunks))
  }

  // ---------------------------------------------------------------------------
  // Pieces of the response

  /** `partial_info`: the answer itself when it has at most 200 characters,
      else its first 200 characters and "...". */
  function PartialInfo(text: string): (r: string)
    ensures |text| <= 200 ==> r == text
    ensures |text| > 200 ==> |r| == 203 && r[..200] == text[..200] && r[200..] == "..."
  {
    if |text| > 200 then text[..200] + "..." else text
  }

  /** An excerpt of at most 150 characters of content, marked "..." when cut. */
  function Excerpt(content: string): (r: string)
    ensures |content| <= 150 ==> r == content
    ensures |content| > 150 ==> |r| == 153 && r[..150] == content[..150] && r[150..] == "..."
  {
    if |content| > 150 then content[..150] + "..." else content
  }

  /** The document name read back from a citation: the text before the
      first '|', stripped. */
  function NameBeforeBar(citation: string): string {
    Strip(Split(citation, '|')[0])
  }

  /** Some context chunk has the given id. */
  predicate InContext(ctx: seq<ContextChunk>, id: string) {
    exists i :: 0 <= i < |ctx| && ctx[i].chunkId == id
  }

  /** The context chunk with the given id, first match. */
  function FindContext(ctx: seq<ContextChunk>, id: string): (r: Option<ContextChunk>)
    ensures r.Some? ==> r.value in ctx && r.value.chunkId == id
    ensures r.Some? <==> InContext(ctx, id)
    decreases |ctx|
  {
    if |ctx| == 0 then None
    else if ctx[0].chunkId == id then Some(ctx[0])
    else
      var r := FindContext(ctx[1..], id);
      assert InContext(ctx[1..], id) ==> InContext(ctx, id);
      assert InContext(ctx, id) ==> InContext(ctx[1..], id);
      r
  }

  /** The retrieved chunk with the given id, first match. */
  function FindRetrieved(chunks: seq<RetrievedChunk>, id: string): (r: Option<RetrievedChunk>)
    ensures r.Some? ==> r.value in chunks && r.value.chunkId == id
    ensures r.None? <==> forall i :: 0 <= i < |chunks| ==> chunks[i].chunkId != id
    decreases |chunks|
  {
    if |chunks| == 0 then None
    else if chunks[0].chunkId == id then Some(chunks[0])
    else FindRetrieved(chunks[1..], id)
  }

  /** The citation of a matched chunk: the document name comes from the
      context chunk's citation, the score and match type from the sentence. */
  function SentenceCitation(id: string, c: ContextChunk, excerpt: string, g: GroundingResult): (r: SourceCitation)
    ensures r.chunkId == id && r.excerpt == excerpt
    ensures forall rc :: c.citation == Citation(rc) && '|' !in rc.documentName && IsStripped(rc.documentName) ==>
              r.documentName == rc.documentName
    ensures r.relevanceScore == g.confidence && r.matchType == g.matchType.Value()
    ensures r.pageNumber.None? && r.section.None?
  {
    SourceCitation(id, NameBeforeBar(c.citation), None, None, excerpt, g.confidence, g.matchType.Value())
  }

  /** The (id, excerpt) pairs whose id names a context chunk. */
  function Cited(ctx: seq<ContextChunk>): ((string, string)) -> bool {
    (p: (string, string)) => InContext(ctx, p.0)
  }

  /** The citations of one sentence: its matched chunk ids zipped with its
      excerpts, kept only for ids that name a context chunk. */
  function SentenceCitations(ids: seq<string>, excerpts: seq<string>, g: GroundingResult, ctx: seq<ContextChunk>)
    : (r: seq<SourceCitation>)
    ensures |r| <= |ids| && |r| <= |excerpts|
    ensures forall i :: 0 <= i < |r| ==> InContext(ctx, r[i].chunkId)
    ensures forall i :: 0 <= i < |r| ==> r[i].relevanceScore == g.confidence && r[i].matchType == g.matchType.Value()
  {
    var kept := Filter(Cited(ctx), Zip(ids, excerpts));
    seq(|kept|, i requires 0 <= i < |kept| =>
      SentenceCitation(kept[i].0, FindContext(ctx, kept[i].0).value, kept[i].1, g))
  }

  /** When every matched id names a context chunk, each matched chunk is
      cited with its own excerpt, in order. */
  lemma SentenceCitationsComplete(ids: seq<string>, excerpts: seq<string>, g: GroundingResult, ctx: seq<ContextChunk>)
    requires |ids| == |excerpts|
    requires forall i :: 0 <= i < |ids| ==> InContext(ctx, ids[i])
    ensures var r := SentenceCitations(ids, excerpts, g, ctx);
            |r| == |ids| && forall i :: 0 <= i < |r| ==> r[i].chunkId == ids[i] && r[i].excerpt == excerpts[i]
  {
    var z := Zip(ids, excerpts);
    assert forall i :: 0 <= i < |z| ==> Cited(ctx)(z[i]);
    FilterAll(Cited(ctx), z);
  }

  function Sentence(g: GroundingResult, ctx: seq<ContextChunk>): GroundedSentence {
    GroundedSentence(g.sentence, SentenceCitations(g.matchedChunks, g.matchedExcerpts, g, ctx), g.confidence, g.isGrounded)
  }

  /** One grounded sentence per validated sentence, in order. */
  function Sentences(rs: seq<GroundingResult>, ctx: seq<ContextChunk>): (r: seq<GroundedSentence>)
    ensures |r| == |rs|
    ensures forall i :: 0 <= i < |r| ==>
              r[i].text == rs[i].sentence && r[i].isGrounded == rs[i].isGrounded && r[i].confidence == rs[i].confidence
    ensures forall i :: 0 <= i < |r| ==> CitesContext(r[i], ctx)
  {
    seq(|rs|, i requires 0 <= i < |rs| => Sentence(rs[i], ctx))
  }

  /** Every citation of the sentence names a context chunk. */
  predicate CitesContext(s: GroundedSentence, ctx: seq<ContextChunk>) {
    forall j :: 0 <= j < |s.citations| ==> InContext(ctx, s.citations[j].chunkId)
  }

  /** The source entry for one context chunk. */
  function Source(c: ContextChunk, chunks: seq<RetrievedChunk>): (r: SourceCitation)
    ensures r.chunkId == c.chunkId
    ensures r.matchType == "direct"
    ensures r.excerpt == Excerpt(c.content)
    ensures forall rc :: c.citation == Citation(rc) && '|' !in rc.documentName && IsStripped(rc.documentName) ==>
              r.documentName == rc.documentName
    ensures (exists i :: 0 <= i < |chunks| && chunks[i].chunkId == c.chunkId) ==>
              exists rc :: rc in chunks && rc.chunkId == c.chunkId && r.pageNumber == rc.pageNumber
                           && r.section == rc.sectionTitle && r.relevanceScore == rc.finalScore
    ensures (forall i :: 0 <= i < |chunks| ==> chunks[i].chunkId != c.chunkId) ==>
              r.pageNumber.None? && r.section.None? && r.relevanceScore == 0.0
  {
    var retrieved := FindRetrieved(chunks, c.chunkId);
    SourceCitation(
      c.chunkId,
      if '|' in c.citation then NameBeforeBar(c.citation) else c.citation,
      if retrieved.Some? then retrieved.value.pageNumber else None,
      if retrieved.Some? then retrieved.value.sectionTitle else None,
      Excerpt(c.content),
      if retrieved.Some? then retrieved.value.finalScore else 0.0,
      "direct")
  }

  /** `sources_used`: one entry per context chunk among the first `top_k`. */
  function SourcesUsed(ctx: seq<ContextChunk>, chunks: seq<RetrievedChunk>, topK: int): (r: seq<SourceCitation>)
    ensures topK >= 0 ==> |r| <= topK
    ensures |r| <= |ctx|
    ensures forall i :: 0 <= i < |r| ==> r[i].chunkId == ctx[i].chunkId
  {
    var shown := PyTake(ctx, topK);
    seq(|shown|, i requires 0 <= i < |shown| => Source(shown[i], chunks))
  }

  /** The relevance of a source is the final score of the retrieved chunk
      it came from, or 0 when no retrieved chunk has its id. */
  lemma SourceRelevance(c: ContextChunk, chunks: seq<RetrievedChunk>)
    ensures (exists i :: 0 <= i < |chunks| && chunks[i].chunkId == c.chunkId) ==>
              exists i :: 0 <= i < |chunks| && chunks[i].chunkId == c.chunkId
                          && Source(c, chunks).relevanceScore == chunks[i].finalScore
    ensures (forall i :: 0 <= i < |chunks| ==> chunks[i].chunkId != c.chunkId) ==>
              Source(c, chunks).relevanceScore == 0.0 && Source(c, chunks).pageNumber.None?
  {
  }

  /** The validation warnings joined by "; ", or none. */
  function JoinedWarning(warnings: seq<string>): (r: Option<string>)
    ensures r.None? <==> warnings == []
    ensures |warnings| == 1 ==> r == Some(warnings[0])
  {
    if warnings == [] then None else Some(Join("; ", warnings))
  }

  // ---------------------------------------------------------------------------
  // ask_question

  /** What validation guarantees of its result: a score in [0, 1] and
      validity exactly at or above the confidence threshold. */
  predicate Validated(v: ValidationResult) {
    0.0 <= v.groundingScore <= 1.0 && (v.isValid <==> v.groundingScore >= Config.MinGroundingConfidence)
  }

  /** The answer built from a validation that was not rejected. */
  function BuildAnswer(req: QueryRequest, chunks: seq<RetrievedChunk>, built: BuiltContext, text: string,
                       v: ValidationResult): (r: QueryResponse)
    requires 0.0 <= v.groundingScore <= 1.0
    ensures r.Answer? && ScoresInRange(r)
    ensures r.answer == text && r.totalSourcesRetrieved == |chunks|
    ensures r.groundingScore == v.groundingScore && r.overallConfidence == v.groundingScore
    ensures r.isGrounded == v.isValid
    ensures |r.groundedSentences| == |v.sentenceResults|
    ensures forall i :: 0 <= i < |r.groundedSentences| ==> CitesContext(r.groundedSentences[i], built.chunks)
    ensures |r.sourcesUsed| <= req.topK || req.topK < 0
    ensures r.warning.None? <==> v.warnings == []
  {
    Answer(text, Sentences(v.sentenceResults, built.chunks), v.groundingScore, v.groundingScore,
           SourcesUsed(built.chunks, chunks, req.topK), |chunks|, v.isValid, JoinedWarning(v.warnings))
  }

  /** Python's `reason or default` on an optional string: `None` and the
      empty string are both falsy and give the default. */
  function ReasonOr(reason: Option<string>, default: string): (r: string)
    ensures reason.Some? && reason.value != "" ==> r == reason.value
    ensures reason.None? || reason.value == "" ==> r == default
  {
    if reason.Some? && reason.value != "" then reason.value else default
  }

  /** The last step of `ask_question`, once an answer has been generated
      and validated: decline when grounding is required and the gate
      rejects the answer, answer otherwise. */
  function Respond(req: QueryRequest, chunks: seq<RetrievedChunk>, built: BuiltContext, text: string,
                   v: ValidationResult): (r: QueryResponse)
    requires Validated(v)
    ensures ScoresInRange(r)
    ensures r.NoAnswer? <==> req.requireGrounding && RejectIfUngrounded(v).0
    ensures r.NoAnswer? ==>
              r == NoAnswer(ReasonOr(RejectIfUngrounded(v).1, RejectedReason), RejectedSuggestions,
                            Some(PartialInfo(text)), |chunks|)
    ensures r.NoAnswer? ==> r.reason != ""
    ensures r.NoAnswer? && v.errors != [] && v.errors[0] == "" ==> r.reason == RejectedReason
    ensures r.Answer? ==>
              && r.answer == text && r.totalSourcesRetrieved == |chunks|
              && r.groundingScore == v.groundingScore && r.isGrounded == v.isValid
              && (forall i :: 0 <= i < |r.groundedSentences| ==> CitesContext(r.groundedSentences[i], built.chunks))
              && (|r.sourcesUsed| <= req.topK || req.topK < 0)
    ensures req.requireGrounding && r.Answer? ==> r.isGrounded && r.groundingScore >= Config.MinGroundingConfidence
  {
    var (reject, reason) := RejectIfUngrounded(v);
    if req.requireGrounding && reject then
      NoAnswer(ReasonOr(reason, RejectedReason), RejectedSuggestions, Some(PartialInfo(text)), |chunks|)
    else BuildAnswer(req, chunks, built, text, v)
  }

  /** On a validation `validate_answer` produced, the errors are empty or
      the one "<50%" message, so a decline carries the gate's own reason
      and never falls back to the default. */
  lemma DeclineCarriesGateReason(req: QueryRequest, chunks: seq<RetrievedChunk>, built: BuiltContext, text: string,
                                 cosine: Cosine)
    ensures var v := ValidateAnswer(text, built.chunks, cosine);
            var r := Respond(req, chunks, built, text, v);
            r.NoAnswer? ==> RejectIfUngrounded(v).1.Some? && r.reason == RejectIfUngrounded(v).1.value
  {
  }

  /** `ask_question` once chunks have been retrieved: decline when none of
      them enters the context, otherwise generate an answer from the
      grounded prompt, validate it against the context and respond. */
  function AnswerFrom(req: QueryRequest, chunks: seq<RetrievedChunk>, llm: Llm, cosine: Cosine): (r: QueryResponse)
    ensures ScoresInRange(r)
    ensures ContextFor(chunks).chunks == [] ==> r == NoAnswer(NoContextReason, NoContextSuggestions, None, |chunks|)
    ensures r.NoAnswer? ==> r.sourcesChecked == |chunks|
    ensures r.Answer? ==> r.totalSourcesRetrieved == |chunks| && (|r.sourcesUsed| <= req.topK || req.topK < 0)
    ensures req.requireGrounding && r.Answer? ==> r.isGrounded && r.groundingScore >= Config.MinGroundingConfidence
    ensures var built := ContextFor(chunks);
            built.chunks != [] ==>
              var text := Generate(req, built, llm);
              r == Respond(req, chunks, built, text, ValidateAnswer(text, built.chunks, cosine))
  {
    var built := ContextFor(chunks);
    if built.chunks == [] then NoAnswer(NoContextReason, NoContextSuggestions, None, |chunks|)
    else
      var text := Generate(req, built, llm);
      Respond(req, chunks, built, text, ValidateAnswer(text, built.chunks, cosine))
  }

  /** `ask_question`. It declines when nothing is retrieved and when no
      chunk enters the context; otherwise it answers from the context.
      With grounding required, only an answer that passed the gate is
      returned. */
  function AskQuestion(req: QueryRequest, corpus: Corpus, llm: Llm, cosine: Cosine): (r: QueryResponse)
    requires ValidRequest(req)
    ensures ScoresInRange(r)
    ensures var chunks := RetrieveFor(req, corpus);
            && (chunks == [] ==> r == NoAnswer(NoDocumentsReason, NoDocumentsSuggestions, None, 0))
            && (chunks != [] ==> r == AnswerFrom(req, chunks, llm, cosine))
            && (r.NoAnswer? ==> (r.sourcesChecked == 0 <==> chunks == []))
            && (r.Answer? ==> r.totalSourcesRetrieved == |chunks| && 0 < |chunks| <= 2 * req.topK)
    ensures r.Answer? ==> |r.sourcesUsed| <= req.topK
    ensures req.requireGrounding && r.Answer? ==> r.isGrounded && r.groundingScore >= Config.MinGroundingConfidence
  {
    var chunks := RetrieveFor(req, corpus);
    if chunks == [] then NoAnswer(NoDocumentsReason, NoDocumentsSuggestions, None, 0)
    else AnswerFrom(req, chunks, llm, cosine)
  }

  // ---------------------------------------------------------------------------
  // ask_extractive

  /** The grounded sentence for one checked quote. */
  function QuoteSentence(q: Quote): (r: GroundedSentence)
    ensures r.isGrounded == q.verified
    ensures |r.citations| == 1 && r.citations[0].excerpt == q.quote && r.citations[0].documentName == q.source
    ensures r.confidence == (if q.verified then 1.0 else 0.5)
    ensures r.citations[0].matchType == (if q.verified then "exact" else "unverified")
  {
    var score := if q.verified then 1.0 else 0.5;
    GroundedSentence("\"" + q.quote + "\"",
      [SourceCitation("", q.source, None, None, q.quote, score, if q.verified then "exact" else "unverified")],
      score, q.verified)
  }

  function QuoteSentences(qs: seq<Quote>): (r: seq<GroundedSentence>)
    ensures |r| == |qs|
    ensures forall i :: 0 <= i < |r| ==> r[i] == QuoteSentence(qs[i])
  {
    seq(|qs|, i requires 0 <= i < |qs| => QuoteSentence(qs[i]))
  }

  /** What parsing guarantees of its result: a found answer carries its
      text, and all quotes count as verified exactly when there is at least
      one and each is. */
  predicate Parsed(x: ExtractiveResult) {
    && (x.found ==> x.answer.Some?)
    && (x.allVerified <==> |x.quotes| > 0 && forall i :: 0 <= i < |x.quotes| ==> x.quotes[i].verified)
  }

  /** The parsed response of the extractive language model for a context. */
  function ExtractFor(req: QueryRequest, built: BuiltContext, llm: Llm): (r: ExtractiveResult)
    ensures Parsed(r)
  {
    ParseExtractiveResponse(llm(ExtractivePrompt(built.text, req.question)), built.chunks)
  }

  /** The last step of `ask_extractive`: decline when the model reported no
      answer; otherwise one sentence per quote, graded 1.0 when every quote
      was found in its chunk and 0.7 otherwise. */
  function ExtractiveRespond(chunks: seq<RetrievedChunk>, x: ExtractiveResult): (r: QueryResponse)
    requires Parsed(x)
    ensures ScoresInRange(r)
    ensures r.NoAnswer? <==> !x.found
    ensures !x.found ==> r == NoAnswer(NotExtractableReason, NotExtractableSuggestions, None, |chunks|)
    ensures r.Answer? ==>
              && r.answer == x.answer.value
              && r.totalSourcesRetrieved == |chunks|
              && r.groundedSentences == QuoteSentences(x.quotes)
              && r.isGrounded == x.allVerified
              && (r.groundingScore == 1.0 <==> x.allVerified)
              && (!x.allVerified ==> r.groundingScore == 0.7)
              && r.overallConfidence == r.groundingScore
              && r.sourcesUsed == []
              && (r.warning.None? <==> x.allVerified)
    ensures r.Answer? ==> (r.isGrounded <==>
              |r.groundedSentences| > 0 && forall i :: 0 <= i < |r.groundedSentences| ==> r.groundedSentences[i].isGrounded)
  {
    if !x.found then NoAnswer(NotExtractableReason, NotExtractableSuggestions, None, |chunks|)
    else
      var score := if x.allVerified then 1.0 else 0.7;
      Answer(x.answer.value, QuoteSentences(x.quotes), score, score, [], |chunks|,
             x.allVerified, if x.allVerified then None else Some(UnverifiedQuotesWarning))
  }

  /** `ask_extractive`. It declines when nothing is retrieved; otherwise
      the model is asked for quotes from the context (built with the same
      token budget, and without the empty-context check of `ask_question`),
      and the parsed quotes are graded. */
  function AskExtractive(req: QueryRequest, corpus: Corpus, llm: Llm): (r: QueryResponse)
    requires ValidRequest(req)
    ensures ScoresInRange(r)
    ensures var chunks := RetrieveFor(req, corpus);
            && (chunks == [] ==> r == NoAnswer(NoDocumentsReason, ExtractiveNoDocumentsSuggestions, None, 0))
            && (chunks != [] ==> r == ExtractiveRespond(chunks, ExtractFor(req, ContextFor(chunks), llm)))
            && (r.NoAnswer? ==> (r.sourcesChecked == 0 <==> chunks == []))
            && (r.Answer? ==> r.totalSourcesRetrieved == |chunks| && 0 < |chunks| <= 2 * req.topK)
    ensures r.Answer? ==> (r.isGrounded <==> r.groundingScore == 1.0)
  {
    var chunks := RetrieveFor(req, corpus);
    if chunks == [] then NoAnswer(NoDocumentsReason, ExtractiveNoDocumentsSuggestions, None, 0)
    else ExtractiveRespond(chunks, ExtractFor(req, ContextFor(chunks), llm))
  }
}
