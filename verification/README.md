# RLG backend: retrieval, context assembly and grounding validation in Dafny

This project models the question-answering core of the RLG ("retrieval,
lexical, grounding") backend. The core takes a question through these stages:

1. Retrieval fuses keyword (BM25) hits, dense-vector hits and a structural
   score over the chunk and document tables. It filters by document, category
   and reliability, and returns the best chunks.
2. The context assembler deduplicates those chunks and numbers them `[1]..[n]`
   within a token budget. It formats their citations and builds the grounded
   prompt.
3. The grounding validator splits the generated answer into sentences. It
   checks each sentence against the context with four strategies in a fixed
   order (citation marker, exact substring, word overlap, embedding
   similarity). The share of grounded sentences decides whether the answer is
   accepted.
4. The two query endpoints decide between an answer and a structured "no
   answer". The extractive endpoint parses the model's quotes and checks each
   one against the chunk it cites.

The model also covers:

- the ingestion chunker, which packs paragraphs and sentences up to the chunk
  size and merges small chunks;
- the extension-to-type table;
- the Markdown heading rule;
- the id bookkeeping of the vector index;
- the ranking metrics, score normalisation, tokenizer and citation formatting.

Everything is pure functions over immutable datatypes. The language model, the
embedding model (as a cosine function), the full-text index and the vector
index's hits are parameters. Database tables are sequences and maps. Scores
are exact reals.

Modules follow the source files:

| module | file | source |
|---|---|---|
| `Validation` | validation.dfy | `validation_service.py` |
| `Context` | context.dfy | `context_service.py` |
| `Retrieval` | retrieval.dfy | `retrieval_service.py` |
| `Ingestion` | ingestion.dfy | `ingestion_service.py` |
| `Query` | query.dfy | `api/query.py` |
| `Extractive` | extractive.dfy | `llm_service.py` (extractive parser and prompt) |
| `VectorIndex` | vector_index.dfy | `vector_index_service.py` |
| `Scoring` | scoring.dfy | `utils/scoring.py` |
| `Tokenizer` | tokenizer.dfy | `utils/tokenizer.py` |
| `ChunkModel` | chunk.dfy | `models/chunk.py` |
| `Config` | config.dfy | the settings in `core/config.py` |

Shared helpers live in three more modules:

- `Text`: Python string operations and the small regexes the source uses;
- `Sorting`: stable descending sort and dict-key order;
- `Dicts`: insertion-ordered dicts.

Where the design description of the system and its code disagree, the model
follows the code:

- **Binary verdicts.** Per-sentence verdicts are binary. No sentence counts
  half, so `grounding_score` is grounded sentences over all sentences.
- **No explicit tie-break.** The final sort has none. Python's stable sort
  keeps equal scores in the order of the chunk rows the database returned
  (`Retrieval.RetrieveTiesKeepTableOrder`), not in document position order.
- **Markers are not required.** A sentence without a marker, or with an
  out-of-range marker, is not automatically ungrounded. Out-of-range markers
  are skipped, and the sentence falls through to the other three strategies.
- **The gate.** It rejects on the "<50%" error or on a score below 0.7, and
  only when the request sets `require_grounding`. Otherwise the answer is
  returned with `is_grounded` false.

Details modelled as written:

- **Absent filters.** Absent `document_ids` and `categories` are modelled as
  empty lists. Python treats `None` and `[]` the same way there.
- **Section mark.** The citation text puts the two characters U+0E22 U+0E07
  before a section title, as the program writes them.
- **Reliability.** It multiplies the whole fused score, including the
  structural part.
- **Headers.** The Markdown header regex is matched against the stripped line.

## Model

| member | source | states |
|---|---|---|
| Validation.ValidateAnswer | rlg-backend/app/services/validation_service.py:49-110 | An empty answer or an empty context gives invalid, score 0, no sentence results and only the "Empty answer or context" warning. Otherwise each split sentence is validated against the context with its content index. The score lies in [0,1]. The answer is valid exactly when the score reaches the 0.7 threshold. Warnings and errors are as computed by `Warnings` and `Errors`. |
| Validation.GroundingScore | rlg-backend/app/services/validation_service.py:83-84 | The score is grounded sentences divided by all sentences, and 0 when there are none. It lies in [0,1]. It is 1 exactly when every sentence is grounded, and 0 exactly when none is. |
| Validation.CountGrounded | rlg-backend/app/services/validation_service.py:83 | The count of grounded sentences is at most the number of sentences. It equals that number exactly when all are grounded, and is 0 exactly when none is. |
| Validation.Warnings | rlg-backend/app/services/validation_service.py:93-102 | The "N sentence(s) could not be verified" warning comes first, with N the number of ungrounded sentences, exactly when some sentence is ungrounded. The missing-marker warning is present exactly when the answer has no `[digits]` marker. There are no other warnings: the count is one per condition that holds. |
| Validation.Errors | rlg-backend/app/services/validation_service.py:97-98 | The "<50%" error is present exactly when the score is below 0.5, and it is the only possible error. |
| Validation.ValidateSentence | rlg-backend/app/services/validation_service.py:119-219 | The first applicable strategy decides, in the order cited, exact, overlap, semantic. Each match type occurs exactly when its strategy applies and no earlier one does, and the result is then exactly that strategy's result. A sentence is grounded exactly when some strategy applies. An ungrounded result has no matched chunks or excerpts, and its confidence is the larger of the best overlap and best similarity. Confidence is always in [0,1]. |
| Validation.CitedMatch | rlg-backend/app/services/validation_service.py:131-150 | It matches exactly when some marker `[n]` with 1 ≤ n ≤ len(context) cites a chunk whose similarity to the sentence exceeds 0.5. The result is built from the first such marker in the sentence: chunk `context[n-1]`, its similarity as confidence, its id, and its matching excerpt. |
| Validation.FirstCitingUnique | rlg-backend/app/services/validation_service.py:137-150 | At most one marker is the first that cites a supporting chunk. |
| Validation.FirstCitingOf | rlg-backend/app/services/validation_service.py:137-150 | The marker the scan stops at is the first that cites a supporting chunk. |
| Validation.ExactMatch | rlg-backend/app/services/validation_service.py:152-165 | It matches exactly when the lowercased, marker-free, stripped sentence is longer than 20 characters and occurs in some chunk's lowercased content. The result is for the first such chunk in dict order: confidence 1.0, type exact, that chunk's id, and the cleaned sentence as excerpt. |
| Validation.FuzzyMatch | rlg-backend/app/services/validation_service.py:167-187 | It matches exactly when some chunk's word-overlap score exceeds 0.6. The result is for the first chunk with the highest overlap: that overlap as confidence (no chunk exceeds it), type paraphrase, its id and its matching excerpt (each dropped when empty). |
| Validation.SemanticMatch | rlg-backend/app/services/validation_service.py:189-209 | It matches exactly when some chunk's clamped similarity exceeds 0.7. The result is for the first chunk with the highest similarity: that similarity as confidence (no chunk exceeds it), type inferred, its id and its matching excerpt (each dropped when empty). |
| Validation.BestMatch | rlg-backend/app/services/validation_service.py:167-209 | The shared scan applies exactly when some key exceeds the threshold. Its result is for the first chunk with the highest key, with that key as confidence, which no chunk exceeds. |
| Validation.NoMatch | rlg-backend/app/services/validation_service.py:211-219 | The ungrounded verdict has empty chunks and excerpts, and confidence max(best overlap, best similarity) in [0,1]. |
| Validation.FuzzyMatchScore | rlg-backend/app/services/validation_service.py:221-243 | The score is \|sw ∩ cw\| / \|sw\|, with sw the sentence's non-stopword words and cw the content's words, and 0 when sw is empty. It lies in [0,1]. It is 0 exactly when the two word sets share nothing, and 1 exactly when sw is non-empty and all of it occurs. |
| Validation.WordShare | rlg-backend/app/services/validation_service.py:237-243 | The value is \|sw ∩ cw\| / \|sw\|, and 0 for an empty sw. It lies in [0,1]. It is 0 exactly when the sets are disjoint, and 1 exactly when sw is non-empty and contained in cw. |
| Validation.FuzzyAboveThreshold | rlg-backend/app/services/validation_service.py:179 | The overlap score exceeds 0.6 exactly when 5 × \|sw ∩ cw\| > 3 × \|sw\|. |
| Validation.FuzzyMonotone | rlg-backend/app/services/validation_service.py:221-243 | Content with more words never lowers the overlap score. |
| Validation.Similarity | rlg-backend/app/services/validation_service.py:245-254 | The similarity is clamped to [0,1]. |
| Validation.Clamp01 | rlg-backend/app/services/validation_service.py:254 | `max(0, min(1, x))` lies in [0,1] and is x for x already in [0,1]. |
| Validation.FindMatchingExcerpt | rlg-backend/app/services/validation_service.py:256-281 | It returns "" exactly when no content sentence shares a word with the sentence. Otherwise it returns the first content sentence with the highest overlap, cut to 200 characters plus "...". Its length is at most 203. |
| Validation.PickExcerpt | rlg-backend/app/services/validation_service.py:268-281 | The strict-improvement loop from 0 picks the first candidate with the highest score, or "" when no score is positive. It cuts the pick to 200 characters plus "...". |
| Validation.BestIndex | rlg-backend/app/services/validation_service.py:172-177 | The loop `if score > best` started at 0 ends at the first element with the maximal score, or nothing when no score is positive. |
| Validation.BestScore | rlg-backend/app/services/validation_service.py:168-178 | The best score is non-negative and bounds every element's score. When positive, it is attained. |
| Validation.FirstWhere | rlg-backend/app/services/validation_service.py:153-157 | The first element satisfying the test is found, and it is absent exactly when none satisfies it. |
| Validation.SplitSentences | rlg-backend/app/services/validation_service.py:112-117 | Every sentence is non-empty and stripped. |
| Validation.MarkBreaks | rlg-backend/app/services/validation_service.py:115 | Exactly the whitespace characters the sentence-break regex matches become newlines; whitespace is the ASCII set of `\s` (space, tab to carriage return, U+001C to U+001F). Every other character is kept. |
| Validation.StrippedNonBlank | rlg-backend/app/services/validation_service.py:116 | The kept parts are stripped and non-empty, and there are at most as many as the input parts. |
| Validation.SplitSentencesEmpty | rlg-backend/app/services/validation_service.py:112-117 | An answer yields no sentences exactly when it is all whitespace. |
| Validation.SingleSentence | rlg-backend/app/services/validation_service.py:112-117 | Text without a newline or sentence break is the single sentence `text.strip()`. |
| Validation.StrippedNonBlankEmpty | rlg-backend/app/services/validation_service.py:116 | No part survives exactly when every part is blank. |
| Validation.JoinAllSpace | rlg-backend/app/services/validation_service.py:116 | Joined with a whitespace separator, parts are blank exactly when each part is. |
| Validation.AllSpaceConcat | rlg-backend/app/services/validation_service.py:116 | A concatenation is blank exactly when both halves are. |
| Validation.BlankAnswerInvalid | rlg-backend/app/services/validation_service.py:68-87 | A blank (whitespace-only) answer has no sentence results, score 0, and is invalid. |
| Validation.ContentIndex | rlg-backend/app/services/validation_service.py:71-74 | The content index is a well-formed dict with an entry for every context chunk id. |
| Validation.ValidateAll | rlg-backend/app/services/validation_service.py:77-80 | There is one result per sentence, in order. |
| Validation.RejectIfUngrounded | rlg-backend/app/services/validation_service.py:283-297 | It accepts (false, None) exactly when there are no errors and the score is at least 0.7. Otherwise it rejects with a reason. The reason is the first error when there is one, else the "Answer grounding (x%) below threshold (70%)" message. |
| Validation.RejectIffInvalid | rlg-backend/app/services/validation_service.py:87-98 | On a validated answer the gate rejects exactly the invalid answers. |
| Validation.EmptyAnswerRejected | rlg-backend/app/services/validation_service.py:58-65 | An empty answer is rejected with "Answer grounding (0%) below threshold (70%)". |
| Validation.ZeroScoreReason | rlg-backend/app/services/validation_service.py:295 | The threshold message for a score of 0 reads "Answer grounding (0%) below threshold (70%)". |
| Validation.ThresholdPercent | rlg-backend/app/services/validation_service.py:295 | `f"{0.7:.0%}"` formats as "70%". |
| Validation.ZeroPercent | rlg-backend/app/services/validation_service.py:295 | `f"{0.0:.0%}"` formats as "0%". |
| Validation.RoundHalfEven | rlg-backend/app/services/validation_service.py:295 | Percent formatting rounds to the nearest integer, and ties go to the even one. |
| Validation.RatioFacts | rlg-backend/app/services/validation_service.py:84 | g/n for 0 ≤ g ≤ n lies in [0,1]. It is 1 exactly when g = n, and 0 exactly when g = 0. |
| Validation.CitedMarkerFound | rlg-backend/app/services/validation_service.py:132-136 | A parsed marker number occurs among the sentence's markers. |
| Context.Citation | rlg-backend/app/services/context_service.py:62-68 | The citation reads back: the stripped text before the first '\|' is the document name, when that name is stripped and has no '\|'. A citation without '\|' is the bare document name. |
| Context.CitationAgreesWithChunk | rlg-backend/app/services/context_service.py:62-68 | The context's citation of a chunk equals the chunk model's `get_citation` for the same page, section and document name. |
| Context.BuildContext | rlg-backend/app/services/context_service.py:34-90 | No chunks give ("", []). Otherwise the context chunks are the first `Admitted` deduplicated chunks. Chunk i gets marker `[i+1]`, the chunk's content and id, and its citation. The text is the fixed header followed by each context chunk's marker, a space and its content, joined by blank lines. |
| Context.ChunkParts | rlg-backend/app/services/context_service.py:71-78 | One part per context chunk: its marker, a space and its content. |
| Context.Dedup | rlg-backend/app/services/context_service.py:46-53 | No two kept chunks share their first 100 characters, and at most the input is kept. |
| Context.DedupKeepsFirstOfEachKey | rlg-backend/app/services/context_service.py:46-53 | Deduplication keeps input order. Every key of the input is represented, and each kept chunk is the first input chunk with its key. |
| Context.DedupFrom | rlg-backend/app/services/context_service.py:47-53 | Given the keys already seen, the kept chunks have unseen and pairwise distinct keys. |
| Context.DedupFromSubseq | rlg-backend/app/services/context_service.py:49-53 | The kept chunks are a subsequence of the input. |
| Context.DedupFromCovers | rlg-backend/app/services/context_service.py:49-53 | Every unseen key of the input is kept once. |
| Context.DedupFromKeepsFirst | rlg-backend/app/services/context_service.py:49-53 | Each kept chunk is the first with its key. |
| Context.FirstWithKey | rlg-backend/app/services/context_service.py:50-53 | The first chunk with a given key has that key. |
| Context.Admitted | rlg-backend/app/services/context_service.py:73-76 | Every admitted chunk passed the budget test. The first chunk not admitted, if any, fails the test, and assembly stops there. |
| Context.AdmittedFrom | rlg-backend/app/services/context_service.py:73-76 | Scanning on from j keeps every chunk that fits and stops at the first that does not. |
| Context.AdmittedWithinBudget | rlg-backend/app/services/context_service.py:73-76 | The admitted parts are estimated at most one token over the budget, because the test floors the two estimates separately. |
| Context.ContextHoldsEveryPart | rlg-backend/app/services/context_service.py:86-88 | Each context chunk's marker, a space and its content occur in the context string. |
| Context.MarkerRoundTrip | rlg-backend/app/services/context_service.py:60 | The marker `[i]` reads back through the `[digits]` scanner as exactly the number i. |
| Context.DigitRunOfDigits | rlg-backend/app/services/context_service.py:60 | A digit string ends its digit run where the next character is not a digit. |
| Context.BuildGroundedPrompt | rlg-backend/app/services/context_service.py:92-124 | The prompt starts with the fixed rules followed by the context. |
| Context.CitationGuideLines | rlg-backend/app/services/context_service.py:102-104 | Splitting the citation key at newlines gives back exactly one "marker = citation" line per context chunk, in order. |
| Context.NoNewlineConcat | rlg-backend/app/services/context_service.py:103 | Newline-free strings concatenate to a newline-free string. |
| Retrieval.Retrieve | rlg-backend/app/services/retrieval_service.py:55-89 | It returns min(top_k, n) of the n re-ranked candidates of the merged and, when applicable, filtered hits, sorted by final score, highest first. Nothing left out scores above anything returned. |
| Retrieval.TopByFinalScore | rlg-backend/app/services/retrieval_service.py:89 | Sorting by final score and cutting to k gives exactly min(k, n) of the candidates, highest first. Nothing cut off scores above anything kept. |
| Retrieval.RetrieveRespectsFilters | rlg-backend/app/services/retrieval_service.py:80-83 | When filtering applies, every result's chunk belongs to an existing document meeting every constraint. |
| Retrieval.RetrieveTiesKeepTableOrder | rlg-backend/app/services/retrieval_service.py:89 | Among `retrieve`'s results with any one final score, the order is that of the re-ranked (table) list, and they are its leading ones; all of them when top_k covers the list. |
| Retrieval.ExtractQueryTerms | rlg-backend/app/services/retrieval_service.py:91-101 | Every term is a lowercase word of more than two characters that is not a stopword. |
| Retrieval.QueryTermsExact | rlg-backend/app/services/retrieval_service.py:99-100 | The terms are exactly the qualifying words of the lowercased query, in order and with their repetitions. Non-qualifying words never appear. |
| Retrieval.WordsKeepNoUpper | rlg-backend/app/services/retrieval_service.py:99 | The words of text without capitals have no capitals. |
| Retrieval.Bm25Search | rlg-backend/app/services/retrieval_service.py:103-131 | No terms give no hits. Otherwise the terms are OR-ed with a limit of twice the retrieval depth. A failed query gives no hits. Otherwise each returned chunk id maps to the absolute value of its last row's score. The result is a dict. |
| Retrieval.AbsRows | rlg-backend/app/services/retrieval_service.py:127 | Each index row keeps its id and gets the absolute value of its score. |
| Retrieval.MergeResults | rlg-backend/app/services/retrieval_service.py:133-154 | The candidates are exactly the union of keyword and dense ids. The BM25 score is the keyword score over the maximum (0 when the maximum is not positive or the id has no keyword hit). The dense score is the last dense hit's score, or 0. |
| Retrieval.AddDense | rlg-backend/app/services/retrieval_service.py:150-152 | Each dense hit sets its id's dense score and creates a zero-BM25 entry when needed. BM25 scores are untouched. |
| Retrieval.MaxValue | rlg-backend/app/services/retrieval_service.py:146 | `max(values)` bounds every value and is attained. |
| Retrieval.NormalizedBm25InUnitRange | rlg-backend/app/services/retrieval_service.py:145-148 | With non-negative keyword scores, a normalised BM25 score lies in [0,1]. |
| Retrieval.MergedBm25InUnitRange | rlg-backend/app/services/retrieval_service.py:142-154 | Every merged BM25 score lies in [0,1]. |
| Retrieval.MergedTopHitScoresOne | rlg-backend/app/services/retrieval_service.py:146-148 | The top keyword hit gets BM25 score exactly 1 when its score is positive. |
| Retrieval.GetInWellFormed | rlg-backend/app/services/retrieval_service.py:147 | In a dict, looking up a stored key gives its stored value. |
| Retrieval.FilterCandidates | rlg-backend/app/services/retrieval_service.py:156-190 | The filtered candidates are exactly those with a chunk row whose document exists and meets the constraints: in `document_ids` and in `categories` when those are given, reliability at least the minimum. Scores are unchanged. |
| Retrieval.FilterRows | rlg-backend/app/services/retrieval_service.py:174-188 | The loop over chunk rows keeps exactly the admissible candidate ids, with unchanged scores. |
| Retrieval.StructuralRerank | rlg-backend/app/services/retrieval_service.py:192-263 | There is one result per candidate chunk row, in table order, each computed by `RerankOne`. Every result id is a candidate. |
| Retrieval.RerankOne | rlg-backend/app/services/retrieval_service.py:218-261 | The result carries the chunk's fields. The structural score is `StructuralScore` of the chunk, in [0,1]. The final score is (0.3·bm25 + 0.5·dense + 0.2·structural) × (reliability, 1.0 without a document, × confidence weight). The document name is "Unknown" without a document. |
| Retrieval.StructuralScore | rlg-backend/app/services/retrieval_service.py:222-236 | The score is 0.5 when the lowercased content contains the lowercased query, plus 0.3 × the term coverage, plus 0.2 for a heading. It lies in [0,1] and is 1 exactly for a heading containing the query with full term coverage. |
| Retrieval.StructuralScoreMonotone | rlg-backend/app/services/retrieval_service.py:222-236 | A chunk of the same type that contains the query and every term whenever another does scores at least as high. |
| Retrieval.TermCoverage | rlg-backend/app/services/retrieval_service.py:231 | The coverage is the count of terms occurring in the content over max(len(terms), 1). It lies in [0,1]. It is 1 exactly when there are terms and all occur, and 0 exactly when none occurs. |
| Retrieval.CountContained | rlg-backend/app/services/retrieval_service.py:231 | The count of contained terms is at most the number of terms. It equals it exactly when every term occurs, and is 0 exactly when none does. |
| Retrieval.CountContainedMonotone | rlg-backend/app/services/retrieval_service.py:231 | A text containing every term another contains has at least as many of the terms. |
| Retrieval.ShareFacts | rlg-backend/app/services/retrieval_service.py:231 | n/d for 0 ≤ n ≤ d lies in [0,1]. It is 1 exactly when n = d, and 0 exactly when n = 0. |
| Retrieval.FusedScoreBounds | rlg-backend/app/services/retrieval_service.py:239-246 | With component scores in [0,1], the weighted sum lies in [0,1], and the final score lies between 0 and the boost. |
| Retrieval.DivideInUnitRange | rlg-backend/app/services/retrieval_service.py:148 | score/max lies in [0,1] for 0 ≤ score ≤ max. |
| Ingestion.DetectFileType | rlg-backend/app/services/ingestion_service.py:88-105 | Given the path's final component, the lowercased suffix is looked up in the extension table. An unknown or missing suffix gives TXT. |
| Ingestion.Suffix | rlg-backend/app/services/ingestion_service.py:90 | Applied to the path's final component (`filepath.name`): the suffix is empty, or a '.' plus at least one character that ends the name, comes after its first character, and has no other '.'. |
| Ingestion.DetectIgnoresCase | rlg-backend/app/services/ingestion_service.py:90 | Names whose suffixes agree up to case get the same type. |
| Ingestion.DetectUpperCase | rlg-backend/app/services/ingestion_service.py:90-92 | "a.PDF" is a PDF. |
| Ingestion.DetectLastSuffix | rlg-backend/app/services/ingestion_service.py:90-105 | Only the last extension counts: "a.md.gz" is TXT. |
| Ingestion.DetectHiddenFile | rlg-backend/app/services/ingestion_service.py:90-105 | ".md" has no suffix and is TXT. |
| Ingestion.ChunkText | rlg-backend/app/services/ingestion_service.py:295-400 | Chunks have sequence indices 0,1,2,… with no gaps. They are paragraph chunks on the given page. Every content is non-empty. A content is at most CHUNK_SIZE unless it is a single piece. Joining the contents with " " equals joining the non-blank pieces with " " in order. There are no chunks exactly when there are no pieces. Chunk i is group i of the packer joined by " ", and the groups, in order, are exactly the pieces: whole stripped paragraphs, or whole stripped sentences of an oversized paragraph, never cut. When no paragraph is oversized, every chunk after the first was started only because the first piece would have pushed the one before past CHUNK_SIZE (current length + 1 + piece > CHUNK_SIZE). |
| Ingestion.ParagraphSteps | rlg-backend/app/services/ingestion_service.py:314-384 | A blank paragraph contributes nothing. A paragraph of at most CHUNK_SIZE contributes itself, stripped. A longer one contributes a flush, then its stripped non-blank sentences. |
| Ingestion.SentenceSteps | rlg-backend/app/services/ingestion_service.py:341-345 | Only stripped, non-blank sentences are added. |
| Ingestion.TextSteps | rlg-backend/app/services/ingestion_service.py:314-384 | Every piece added is stripped and non-blank. |
| Ingestion.Pack | rlg-backend/app/services/ingestion_service.py:310-398 | The emitted chunks hold exactly the added pieces, in order. Every chunk of two or more pieces fits CHUNK_SIZE. |
| Ingestion.FeedFacts | rlg-backend/app/services/ingestion_service.py:324-384 | One loop step keeps the packer invariant and appends exactly the added piece. |
| Ingestion.FeedFlush | rlg-backend/app/services/ingestion_service.py:323-338 | The forced flush before an oversized paragraph keeps the chunks and the invariant. |
| Ingestion.FeedStarts | rlg-backend/app/services/ingestion_service.py:347-364 | A piece that would overflow the chunk being built starts a new chunk. |
| Ingestion.FeedExtends | rlg-backend/app/services/ingestion_service.py:363-384 | A piece that fits joins the current chunk, which still fits. |
| Ingestion.FeedFirst | rlg-backend/app/services/ingestion_service.py:363-384 | The first piece of a chunk starts it. |
| Ingestion.FinalGroupsFacts | rlg-backend/app/services/ingestion_service.py:386-398 | After the final flush every group is non-empty and fits. |
| Ingestion.GroupContent | rlg-backend/app/services/ingestion_service.py:325-388 | A chunk's content is non-empty, and it is within CHUNK_SIZE or is a single piece. |
| Ingestion.PackGreedy | rlg-backend/app/services/ingestion_service.py:347-350 | When no step forces a flush, a new group is started only when the piece does not fit after the current one (current length + 1 + piece > CHUNK_SIZE), and nothing is emitted while the current chunk is empty. |
| Ingestion.TextGroupsGreedy | rlg-backend/app/services/ingestion_service.py:314-352 | When no stripped paragraph exceeds CHUNK_SIZE, the paragraph groups are packed greedily: each group after the first starts only because its first paragraph would overflow the one before. |
| Ingestion.ChunkTextFacts | rlg-backend/app/services/ingestion_service.py:305-400 | The chunks built from the groups carry the group facts and preserve the space-joined text. |
| Ingestion.BlankTextNoChunks | rlg-backend/app/services/ingestion_service.py:314-317 | Text whose paragraphs are all blank yields no chunks. |
| Ingestion.BlankSteps | rlg-backend/app/services/ingestion_service.py:315-317 | Blank paragraphs add no pieces. |
| Ingestion.ShortParagraphsArePieces | rlg-backend/app/services/ingestion_service.py:365-384 | Paragraphs within CHUNK_SIZE are never split: each is one stripped piece. |
| Ingestion.Pieces | rlg-backend/app/services/ingestion_service.py:363 | There are at most as many added pieces as steps. |
| Ingestion.PiecesNonEmpty | rlg-backend/app/services/ingestion_service.py:343-345 | Added pieces are non-empty. |
| Ingestion.JoinFlatten | rlg-backend/app/services/ingestion_service.py:325 | Joining each chunk's pieces and then the chunks gives the join of all pieces. |
| Ingestion.MergeSmallChunks | rlg-backend/app/services/ingestion_service.py:402-431 | Fewer than two chunks come back unchanged. Otherwise the output is no longer than the input. Its " "-joined content equals the input's. Every output chunk is a heading or at least min_size long, unless it is the only one. Headings are neither lost nor added. Only small chunks are absorbed: there are at least as many output chunks as input chunks that are headings or at least min_size long. |
| Ingestion.MergeKeepsLargeChunks | rlg-backend/app/services/ingestion_service.py:410-423 | Chunks that are all headings or long enough pass through the loop unchanged. |
| Ingestion.MergeState | rlg-backend/app/services/ingestion_service.py:407-423 | After the loop, the pending contents preserve the joined text. Emitted chunks stand alone, the buffer holds only merged small chunks, and every heading has been emitted. |
| Ingestion.MergeStateStep | rlg-backend/app/services/ingestion_service.py:410-423 | One more chunk through the loop keeps that invariant. |
| Ingestion.MergeStepFacts | rlg-backend/app/services/ingestion_service.py:411-423 | A small non-heading joins the buffer. A large chunk absorbs a small buffer or follows a large one, and headings are never buffered. |
| Ingestion.StepAlone | rlg-backend/app/services/ingestion_service.py:423 | A large chunk with no buffer is emitted as is. |
| Ingestion.StepAfterSmallBuffer | rlg-backend/app/services/ingestion_service.py:417-419 | A small buffer is prepended to the next large chunk. |
| Ingestion.StepAfterLargeBuffer | rlg-backend/app/services/ingestion_service.py:417-423 | A buffer grown to min_size is emitted before the next large chunk. |
| Ingestion.BufferGrows | rlg-backend/app/services/ingestion_service.py:412-413 | Appending to the buffer keeps the joined text. |
| Ingestion.InvStep | rlg-backend/app/services/ingestion_service.py:410-423 | A step that does what `StepOk` says keeps the invariant. |
| Ingestion.MergeFinishFacts | rlg-backend/app/services/ingestion_service.py:425-431 | A leftover buffer is appended to the last emitted chunk, or becomes the only chunk, keeping the joined text and the headings. |
| Ingestion.JoinMergeLast | rlg-backend/app/services/ingestion_service.py:427 | Merging the last two parts with a space does not change the space-joined text. |
| Ingestion.MarkdownLine | rlg-backend/app/services/ingestion_service.py:244-270 | A blank line gives nothing. A header line gives a heading chunk with its text, level = number of '#', weight 1.2 and itself as section. Any other line gives a paragraph of the stripped line in the current section, with weight 1.0. |
| Ingestion.HeaderMatchIff | rlg-backend/app/services/ingestion_service.py:250-253 | The header regex matches a stripped line exactly when it splits into 1–6 '#', whitespace, and a non-empty newline-free rest. The level is the hash count, and the text is the rest from its first non-space character. |
| Ingestion.DecomposesAtRun | rlg-backend/app/services/ingestion_service.py:250 | Any such split makes the regex match. |
| Ingestion.HashRun | rlg-backend/app/services/ingestion_service.py:250 | The leading run of '#' is maximal. |
| Ingestion.SectionIsLastHeader | rlg-backend/app/services/ingestion_service.py:242-254 | The current section is the text of the last header line before the point, and none when there was no header. |
| Ingestion.LastSomeIsLast | rlg-backend/app/services/ingestion_service.py:254 | The last defined value in a sequence is defined, with nothing defined after it. |
| Ingestion.MarkdownChunks | rlg-backend/app/services/ingestion_service.py:244-272 | There is at most one chunk per line. |
| Ingestion.MarkdownChunkCount | rlg-backend/app/services/ingestion_service.py:244-272 | Non-blank lines give one chunk each, and all-blank lines give none. |
| Ingestion.MarkdownChunksSnoc | rlg-backend/app/services/ingestion_service.py:244-272 | The last line adds one chunk unless it is blank. |
| Ingestion.ProcessMarkdown | rlg-backend/app/services/ingestion_service.py:236-274 | After merging, the joined text and the headings of the line chunks are preserved. Every chunk is a heading or at least 100 characters, unless it is the only one. There are at least as many chunks as line chunks that are headings or at least 100 characters. |
| Query.AskQuestion | rlg-backend/app/api/query.py:35-211 | No retrieved chunks give "No relevant documents found" with sources_checked 0. Otherwise it answers from the chunks. sources_checked is 0 exactly when nothing was retrieved. An answer reports all retrieved chunks (0 < n ≤ 2·top_k) and at most top_k sources. With grounding required, an answer is grounded with score ≥ 0.7. |
| Query.AnswerFrom | rlg-backend/app/api/query.py:85-137 | An empty context gives the "too short or irrelevant" no-answer with sources_checked = retrieved count. Otherwise it generates from the grounded prompt, validates against the context and responds. |
| Query.Respond | rlg-backend/app/api/query.py:123-211 | It declines exactly when grounding is required and the gate rejects. A decline carries the gate's reason, or "Answer failed grounding validation" when that reason is absent or empty (Python's `or`), so it is never empty. It also carries the two suggestions, the answer or its first 200 characters + "...", and the retrieved count. An answer carries the text, the score, the validity, citations into the context only, and at most top_k sources. |
| Query.DeclineCarriesGateReason | rlg-backend/app/api/query.py:123-131 | On a validation that `validate_answer` produced, a decline carries exactly the gate's reason. The default reason is never used there. |
| Query.BuildAnswer | rlg-backend/app/api/query.py:139-211 | The answer carries the text, the retrieved count, the score as both grounding score and overall confidence, and the validity as is_grounded. It has one sentence per validated sentence with context-only citations, at most top_k sources, and a warning exactly when validation warned. |
| Query.RetrieveFor | rlg-backend/app/api/query.py:62-68 | Retrieval is asked for top_k × 2 chunks. It returns min(top_k × 2, n) of the n re-ranked candidates, highest final score first, and none left out scores above one returned. |
| Query.PartialInfo | rlg-backend/app/api/query.py:135 | partial_info is the whole answer when it has at most 200 characters, else its first 200 characters + "...". |
| Query.Excerpt | rlg-backend/app/api/query.py:174 | The source excerpt is the content when it has at most 150 characters, else its first 150 + "...". |
| Query.FindContext | rlg-backend/app/api/query.py:145-148 | The context chunk with the given id is found exactly when one exists. |
| Query.FindRetrieved | rlg-backend/app/api/query.py:168 | The retrieved chunk with the id is found, and it is absent exactly when no retrieved chunk has the id. |
| Query.SentenceCitation | rlg-backend/app/api/query.py:146-156 | Id, excerpt, confidence and match type come from the sentence. When the context chunk's citation was built from a document name that is stripped and has no '|', that name is the citation's document name. No page or section. |
| Query.SentenceCitations | rlg-backend/app/api/query.py:142-156 | Citations are emitted only for matched chunk ids present in the context, with the sentence's confidence and match type. |
| Query.SentenceCitationsComplete | rlg-backend/app/api/query.py:143-156 | When every matched id is in the context, each is cited with its own excerpt, in order. |
| Query.Sentences | rlg-backend/app/api/query.py:140-163 | There is one grounded sentence per validation result, each citing context chunks only. |
| Query.Source | rlg-backend/app/api/query.py:167-177 | The entry keeps the chunk id, the 150-character excerpt and "direct". The document name read back is the name the citation was built from, when that name is stripped and has no '\|'. With a retrieved chunk of that id, page, section and final score come from one such chunk; without one, page and section are absent and the score is 0. |
| Query.SourcesUsed | rlg-backend/app/api/query.py:166-177 | There is at most top_k sources, one per leading context chunk, in order. |
| Query.SourceRelevance | rlg-backend/app/api/query.py:168-175 | A source's relevance is the final score of the retrieved chunk with its id, or 0 when none has it. |
| Query.JoinedWarning | rlg-backend/app/api/query.py:207 | There is no warning exactly when validation gave none. A single warning is passed through as is. |
| Query.AskExtractive | rlg-backend/app/api/query.py:224-300 | No retrieved chunks give "No relevant documents found" with sources_checked 0. Otherwise it responds from the parsed quotes. An answer reports all retrieved chunks, and it is grounded exactly when its score is 1.0. |
| Query.ExtractiveRespond | rlg-backend/app/api/query.py:262-300 | Not found gives the "No extractable answer" no-answer. Otherwise the score is 1.0 exactly when all quotes are verified, else 0.7. is_grounded equals all_verified, and there are no sources. A warning is present exactly when some quote is unverified. |
| Query.QuoteSentence | rlg-backend/app/api/query.py:272-283 | A quote becomes a sentence with one citation. It is grounded iff verified, with confidence 1.0/0.5 and type "exact"/"unverified". |
| Query.QuoteSentences | rlg-backend/app/api/query.py:271-283 | There is one sentence per quote, in order. |
| Query.ExtractFor | rlg-backend/app/services/llm_service.py:157-171 | The extractive result of the model's response is well formed: a found answer has text, and all_verified holds iff there are quotes and all are verified. |
| Extractive.ParseExtractiveResponse | rlg-backend/app/services/llm_service.py:195-241 | A response containing "NOT_FOUND" in any case gives not found, no answer and no quotes. Otherwise each quote whose citation is within 1..len(context) is checked, in order, and all_verified holds iff there are quotes and all are verified. |
| Extractive.KeptQuotes | rlg-backend/app/services/llm_service.py:216-218 | The kept quotes are the found ones, in order, minus exactly those citing outside 1..len(context). |
| Extractive.CheckQuote | rlg-backend/app/services/llm_service.py:219-234 | A kept quote carries "[n]" and the cited chunk's citation. It is verified exactly when its lowercased text occurs in the cited chunk's lowercased content. |
| Extractive.CheckQuotes | rlg-backend/app/services/llm_service.py:216-234 | There is one checked quote per kept quote, in order. |
| Extractive.AllVerified | rlg-backend/app/services/llm_service.py:240 | all_verified is false without quotes, else the conjunction of the verified flags. |
| Extractive.VerbatimQuoteVerified | rlg-backend/app/services/llm_service.py:221 | A quote copied verbatim from the chunk it cites is verified. |
| Extractive.LowerContains | rlg-backend/app/services/llm_service.py:221 | Lowercasing keeps a substring a substring. |
| Extractive.FindQuotes | rlg-backend/app/services/llm_service.py:212-213 | Every found quote is non-empty and quote-free, with a non-empty digit string. |
| Extractive.FindQuotesRendered | rlg-backend/app/services/llm_service.py:212-213 | Reading back quotes written as `"text" [n]` gives exactly those quotes. |
| Extractive.FindQuotesStep | rlg-backend/app/services/llm_service.py:212-213 | A match at the start is found first, and scanning resumes after it. |
| Extractive.QuoteAt | rlg-backend/app/services/llm_service.py:212 | A match at the start of the text satisfies the quote regex shape. |
| Extractive.QuoteAtRender | rlg-backend/app/services/llm_service.py:212 | A rendered quote is matched as exactly that quote and number. |
| Extractive.QuoteAtRuns | rlg-backend/app/services/llm_service.py:212 | Once the quote, space and marker runs are known, the match is determined. |
| Extractive.RenderRuns | rlg-backend/app/services/llm_service.py:212 | The runs of a rendered quote are its text, one space and its marker. |
| Extractive.RenderShape | rlg-backend/app/services/llm_service.py:212 | A rendered quote starts with '"', the text, '"' and a space. |
| Extractive.MatchOf | rlg-backend/app/services/llm_service.py:212 | The match built from the runs satisfies the regex shape. |
| Extractive.QuoteSlices | rlg-backend/app/services/llm_service.py:212 | The quoted text has no '"', and the digits lie between the brackets. |
| Extractive.NonQuoteRun | rlg-backend/app/services/llm_service.py:212 | `[^"]+` is maximal: it stops at the first '"'. |
| Extractive.NonQuoteRunOf | rlg-backend/app/services/llm_service.py:212 | The run of a quote-free text ends at the closing '"'. |
| Extractive.DigitRunOf | rlg-backend/app/services/llm_service.py:212 | The digits of a marker end at ']'. |
| Extractive.MarkerLenOf | rlg-backend/app/services/llm_service.py:212 | `[digits]` has length digits + 2. |
| Extractive.ExtractivePrompt | rlg-backend/app/services/llm_service.py:173-193 | The prompt starts with the extractive rules and the context, and ends with the answer cue. |
| VectorIndex.AddChunks | rlg-backend/app/services/vector_index_service.py:64-77 | Empty ids or contents are a no-op. Otherwise the ids and one vector per content are appended after the existing ones. An index in sync stays in sync exactly when as many ids as contents are given. |
| VectorIndex.AddChunksEntries | rlg-backend/app/services/vector_index_service.py:70-74 | Adding to an index in sync pairs each new id with its content's vector, after the existing entries. |
| VectorIndex.RemoveChunks | rlg-backend/app/services/vector_index_service.py:79-107 | The result is in sync. Its entries are exactly the old entries whose id is not removed, in order, each still paired with its vector. |
| VectorIndex.RemoveNothing | rlg-backend/app/services/vector_index_service.py:88-89 | Removing ids the index does not hold changes nothing. |
| VectorIndex.RemoveEverything | rlg-backend/app/services/vector_index_service.py:102-105 | Removing every id leaves the empty index. |
| VectorIndex.RemoveKeepsOthers | rlg-backend/app/services/vector_index_service.py:83-86 | An entry survives exactly when its id is not being removed. |
| VectorIndex.FilterFull | rlg-backend/app/services/vector_index_service.py:88 | A filter that keeps as many elements as the input keeps all of them. |
| VectorIndex.FromEntries | rlg-backend/app/services/vector_index_service.py:99-101 | An index rebuilt from entries is in sync and holds exactly those entries. |
| VectorIndex.Search | rlg-backend/app/services/vector_index_service.py:109-135 | An empty index gives []. Otherwise there are at most min(top_k, size) hits, exactly that many when the id list is in sync, in non-increasing score order. Each is (chunk_ids[p], score of vector p) for an in-bounds position p. |
| VectorIndex.SearchIsTop | rlg-backend/app/services/vector_index_service.py:126-133 | In an index in sync, no vector whose hit the search leaves out scores above a hit it returns. |
| VectorIndex.TopPositions | rlg-backend/app/services/vector_index_service.py:126-127 | Exactly min(k, size) distinct in-bounds positions, best score first. No position left out scores above one returned. |
| VectorIndex.TopOfPositions | rlg-backend/app/services/vector_index_service.py:126-127 | Among all positions, none left out of the top k scores above one kept. |
| VectorIndex.HeadScoresHighest | rlg-backend/app/services/vector_index_service.py:126-133 | The first of descending positions scores at least as high as every hit of the others. |
| VectorIndex.Hits | rlg-backend/app/services/vector_index_service.py:130-133 | Positions without an id are skipped. Every hit is an in-bounds (id, score) pair. When the index is in sync, hit i is position i's id and score. Hits keep the positions' descending score order. |
| Scoring.Recall | rlg-backend/app/utils/scoring.py:59-68 | Recall is \|retrieved ∩ relevant\| / \|relevant\| over the sets, and 0 for empty `relevant`. It lies in [0,1] and is 1 exactly when every relevant id was retrieved. |
| Scoring.Precision | rlg-backend/app/utils/scoring.py:71-80 | Precision is \|retrieved ∩ relevant\| / \|retrieved\| over the sets, and 0 for empty `retrieved`. It lies in [0,1] and is 1 exactly when every retrieved id is relevant. |
| Scoring.PrecisionIsSwappedRecall | rlg-backend/app/utils/scoring.py:59-80 | Precision is recall with the two lists swapped. |
| Scoring.RecallMonotone | rlg-backend/app/utils/scoring.py:59-68 | Retrieving more ids never lowers recall. |
| Scoring.Fraction | rlg-backend/app/utils/scoring.py:68 | The value is \|part\|/\|whole\|. For a subset it lies in [0,1] and is 1 exactly when the sets are equal. |
| Scoring.SubsetCardinality | rlg-backend/app/utils/scoring.py:68 | A subset is no larger than its superset, and equal size means equal sets. |
| Scoring.F1 | rlg-backend/app/utils/scoring.py:83-92 | F1 is 0 when precision + recall = 0. Otherwise it is HarmonicMean(p, c), the value r with r·(p + c) = 2pc, which lies between the two. It is 1 exactly when both are 1. |
| Scoring.HarmonicMean | rlg-backend/app/utils/scoring.py:92 | h·(p + c) = 2pc, with h between p and c, and h = 1 exactly when both are 1. |
| Scoring.F1FromCounts | rlg-backend/app/utils/scoring.py:83-92 | In counts, with h the number of distinct relevant ids retrieved: F1 = 2h / (distinct retrieved + distinct relevant), and 0 when both lists are empty. |
| Scoring.HarmonicMeanBounds | rlg-backend/app/utils/scoring.py:92 | The harmonic mean of values in [0,1] lies between them and is 1 only when both are. |
| Scoring.Mrr | rlg-backend/app/utils/scoring.py:95-120 | MRR is the sum of the rankings' reciprocal ranks divided by their number, and 0 for no rankings. It lies in [0,1] and is 1 exactly when every ranking starts with a relevant item. |
| Scoring.ReciprocalRank | rlg-backend/app/utils/scoring.py:112-118 | The value is 1/(k+1) for the first relevant position k, and 0 when no item is relevant. It lies in [0,1] and is 1 exactly when the first item is relevant. |
| Scoring.ReciprocalRankAt | rlg-backend/app/utils/scoring.py:112-118 | When the first relevant item is at position k, the reciprocal rank is 1/(k+1). |
| Scoring.ReciprocalRanks | rlg-backend/app/utils/scoring.py:110-118 | One reciprocal rank per ranking, in order. |
| Scoring.MrrSingle | rlg-backend/app/utils/scoring.py:95-120 | The MRR of one ranking is its reciprocal rank. |
| Scoring.FirstHit | rlg-backend/app/utils/scoring.py:113-116 | It finds the first relevant position, or -1 when there is none. |
| Scoring.MeanOfUnitValues | rlg-backend/app/utils/scoring.py:120 | The mean of values in [0,1] lies in [0,1] and is 1 exactly when all are 1. |
| Scoring.SumOfUnitValues | rlg-backend/app/utils/scoring.py:120 | The sum of n values in [0,1] lies in [0,n] and reaches n exactly when all are 1. |
| Scoring.NormalizeScores | rlg-backend/app/utils/scoring.py:123-134 | Length is preserved. Constant scores give all 1.0. Otherwise entry i is ScaleOne(score i, min, max), i.e. r·(max − min) = score − min. So the min maps to 0 and the max to 1, all outputs lie in [0,1], and order is preserved. |
| Scoring.Scale | rlg-backend/app/utils/scoring.py:134 | Min-max scaling keeps length and is monotone. |
| Scoring.ScaleOne | rlg-backend/app/utils/scoring.py:134 | The scaled score r satisfies r·(hi − lo) = x − lo. It lies in [0,1], with lo mapping to 0 and hi to 1. |
| Scoring.ScaleOneMonotone | rlg-backend/app/utils/scoring.py:134 | Scaling preserves order. |
| Scoring.Min | rlg-backend/app/utils/scoring.py:128 | `min` is a member bounding all others from below. |
| Scoring.Max | rlg-backend/app/utils/scoring.py:129 | `max` is a member bounding all others from above. |
| Scoring.CombineScores | rlg-backend/app/utils/scoring.py:137-165 | Empty inputs give []. A count mismatch raises. An empty first list gives [] whatever the weights, because no item is computed. A success has one entry per item of the first list, entry i being the weighted sum of the normalised scores at i divided by the weight total. Item 0 is computed first: an empty list among non-empty ones raises an index error; otherwise a zero total raises a division error; otherwise a shorter list raises an index error, and with no shorter list the call succeeds. |
| Scoring.Combine | rlg-backend/app/utils/scoring.py:155-163 | One entry per item, entry i being the weighted sum at i over the total. |
| Scoring.CombinedScoresInUnitRange | rlg-backend/app/utils/scoring.py:155-165 | With non-negative weights, every combined score lies in [0,1]. |
| Scoring.CombineSingleList | rlg-backend/app/utils/scoring.py:145-165 | A single list with a non-zero weight combines to its own normalised scores. |
| Scoring.CombineInUnitRange | rlg-backend/app/utils/scoring.py:158-163 | Weighted averages of values in [0,1] lie in [0,1]. |
| Scoring.CombineOneList | rlg-backend/app/utils/scoring.py:158-163 | One list with weight w averages to itself. |
| Scoring.WeightedSumBounds | rlg-backend/app/utils/scoring.py:159-162 | A weighted sum of values in [0,1] with non-negative weights lies between 0 and the total weight. |
| Scoring.DivMonotone | rlg-backend/app/utils/scoring.py:134 | Division by a positive number preserves order. |
| Tokenizer.Tokenize | rlg-backend/app/utils/tokenizer.py:25-32 | Tokens are non-empty and made only of [a-z0-9]. |
| Tokenizer.TokenizeIgnoresCase | rlg-backend/app/utils/tokenizer.py:30 | Tokenizing does not depend on letter case. |
| Tokenizer.TokenizeJoinedTokens | rlg-backend/app/utils/tokenizer.py:25-32 | Tokenizing tokens joined by spaces gives them back. |
| Tokenizer.WordsOfJoinedTokens | rlg-backend/app/utils/tokenizer.py:31 | The word runs of space-joined tokens are the tokens. |
| Tokenizer.JoinedTokensChars | rlg-backend/app/utils/tokenizer.py:31 | Space-joined tokens consist of token characters and spaces. |
| Tokenizer.LowerFixesTokenText | rlg-backend/app/utils/tokenizer.py:30 | Lowercasing leaves token text unchanged. |
| Tokenizer.WordRunOfPrefix | rlg-backend/app/utils/tokenizer.py:31 | A word run ends at the first non-word character. |
| Tokenizer.TokenizeWithoutStopwords | rlg-backend/app/utils/tokenizer.py:35-41 | Every kept token is a non-stopword of more than two characters. |
| Tokenizer.ContentWordsExact | rlg-backend/app/utils/tokenizer.py:40-41 | The result is an order-preserving subsequence of the tokens holding exactly the content tokens, with their repetitions. |
| Tokenizer.Ngrams | rlg-backend/app/utils/tokenizer.py:44-49 | Fewer than n tokens give []. Otherwise there are exactly len−n+1 items, item i being tokens[i..i+n) joined by spaces. |
| Tokenizer.NgramWords | rlg-backend/app/utils/tokenizer.py:44-49 | Splitting an n-gram at spaces gives back its window of tokens. |
| Tokenizer.CandidatePhrases | rlg-backend/app/utils/tokenizer.py:57-66 | No candidate phrase starts or ends with a stopword. |
| Tokenizer.ExtractKeyPhrases | rlg-backend/app/utils/tokenizer.py:52-75 | The result holds min(max_phrases, d) distinct candidate phrases, d being the number of distinct candidates. None starts or ends with a stopword, and they come in non-increasing frequency. |
| Tokenizer.KeyPhraseTiesKeepFirstOccurrences | rlg-backend/app/utils/tokenizer.py:66-75 | Among phrases of any one frequency, those kept are a leading part of them in first-occurrence order: dict insertion order survives the stable sort and the cut. |
| Tokenizer.KeyPhrasesAreMostFrequent | rlg-backend/app/utils/tokenizer.py:68-75 | No candidate left out is more frequent than one kept. With a limit of at least the number of distinct candidates, every candidate is kept. |
| Tokenizer.EstimateTokens | rlg-backend/app/utils/tokenizer.py:78-83 | The estimate is len // 4. |
| Tokenizer.TruncateToTokens | rlg-backend/app/utils/tokenizer.py:86-98 | Text within 4·max_tokens characters is kept. Otherwise the result is the first 4·max_tokens characters + "..." when no period lies beyond 80% of them. Else it is the prefix through the last period in the cut. |
| Tokenizer.TruncateFitsBudget | rlg-backend/app/utils/tokenizer.py:86-98 | A truncated text is estimated at no more than max_tokens. |
| ChunkModel.GetCitation | rlg-backend/app/models/chunk.py:72-81 | Without document, page or section, the citation is "Chunk " + the first 8 characters of the id. Otherwise it is the parts joined by " \| ". |
| ChunkModel.CitationParts | rlg-backend/app/models/chunk.py:74-80 | The parts come in the order filename, page, section. "p.N" is present iff the page is non-null and non-zero, and it directly follows the filename. The section part is present iff the title is non-empty, and it is last. |
| ChunkModel.DocumentNameOfCitation | rlg-backend/app/models/chunk.py:74-81 | The stripped text before the first '\|' of a citation is the document name. |
| ChunkModel.StripTrailingSpace | rlg-backend/app/models/chunk.py:81 | Stripping a stripped name plus a space gives the name. |
| ChunkModel.ParseChunkType | rlg-backend/app/models/chunk.py:14-23 | A parsed chunk type has the given value. |
| ChunkModel.ChunkTypeRoundTrip | rlg-backend/app/models/chunk.py:14-23 | Each chunk type is recovered from its value, so no two types share one. |
| Sorting.SortDesc | rlg-backend/app/services/retrieval_service.py:89 | The sort is a permutation, sorted by key, highest first. |
| Sorting.SortDescStable | rlg-backend/app/services/retrieval_service.py:89 | Among elements with any one key, the sort keeps input order. |
| Sorting.InsertDesc | rlg-backend/app/services/retrieval_service.py:89 | Insertion keeps the sequence sorted and adds exactly one element. |
| Sorting.InsertDescPermutes | rlg-backend/app/services/retrieval_service.py:89 | Insertion adds the element to the multiset. |
| Sorting.InsertDescStable | rlg-backend/app/services/retrieval_service.py:89 | Insertion places the element after the equal keys. |
| Sorting.FilterAppend | rlg-backend/app/services/retrieval_service.py:100 | Filtering distributes over concatenation. |
| Sorting.TopByKey | rlg-backend/app/services/retrieval_service.py:89 | `sorted(..., reverse=True)[:k]` gives exactly min(k, len) elements of the input multiset, sorted by key. Whatever is cut off has no larger key than anything kept. |
| Sorting.PrefixOfSorted | rlg-backend/app/services/retrieval_service.py:89 | A leading part of a descending sequence is a sub-multiset, and nothing it leaves behind has a larger key than anything it keeps. |
| Sorting.TopByKeyTiesKeepOrder | rlg-backend/app/services/retrieval_service.py:89 | Among elements with any one key, the top k are a leading part of them in input order, and all of them when k covers the input. |
| Sorting.FilterOfPrefix | rlg-backend/app/services/retrieval_service.py:89 | Filtering a prefix gives a prefix of the filtered sequence. |
| Sorting.Distinct | rlg-backend/app/utils/tokenizer.py:69-71 | The keys of a dict filled from a sequence are duplicate-free and are exactly its members. |
| Sorting.DistinctOfNoDuplicates | rlg-backend/app/services/vector_index_service.py:126-127 | A duplicate-free sequence is its own distinct elements. |
| Sorting.DistinctInFirstOrder | rlg-backend/app/utils/tokenizer.py:69-71 | Dict keys come in order of first occurrence. |
| Sorting.DistinctSnoc | rlg-backend/app/utils/tokenizer.py:70-71 | A new key is appended, and a known key changes nothing. |
| Sorting.FirstIndex | rlg-backend/app/utils/tokenizer.py:70-71 | The first occurrence of an element. |
| Sorting.FirstIndexSnoc | rlg-backend/app/utils/tokenizer.py:70-71 | Appending does not move a first occurrence. |
| Sorting.SortedDistinct | rlg-backend/app/utils/tokenizer.py:74 | The dict items sorted by count are duplicate-free, complete and sorted, one per distinct element. |
| Sorting.TopDistinct | rlg-backend/app/utils/tokenizer.py:74-75 | The top k distinct elements: exactly min(k, d) of them for d distinct elements, sorted, and all of them when k ≥ d. |
| Sorting.TopDistinctTiesKeepOrder | rlg-backend/app/utils/tokenizer.py:69-75 | Among distinct elements with any one key, the top k are a leading part of them in first-occurrence order, and all of them when k ≥ d. |
| Sorting.TopDistinctIsTop | rlg-backend/app/utils/tokenizer.py:74-75 | For any element of the input not among the top k distinct elements, every element kept has a key at least as large. |
| Sorting.DistinctAtMostOnce | rlg-backend/app/utils/tokenizer.py:71 | A duplicate-free sequence holds each element at most once. |
| Sorting.PermutationKeepsDistinct | rlg-backend/app/utils/tokenizer.py:74 | A permutation of a duplicate-free sequence is duplicate-free. |
| Sorting.TwiceCounted | rlg-backend/app/utils/tokenizer.py:74 | An element at two positions occurs at least twice. |
| Sorting.SameMultisetMembers | rlg-backend/app/utils/tokenizer.py:74 | Permutations have the same members. |
| Dicts.FromPairs | rlg-backend/app/services/validation_service.py:71-74 | A dict comprehension has duplicate-free keys in first-insertion order, built from the given pairs. |
| Dicts.FromPairsGet | rlg-backend/app/services/validation_service.py:71-74 | Each key holds the value of its last pair. |
| Dicts.FromPairsStep | rlg-backend/app/services/validation_service.py:71-74 | One more pair keeps the dict in step with the pairs. |
| Dicts.Put | rlg-backend/app/services/retrieval_service.py:188 | `d[k] = v` appends a new key and keeps the order of the old ones. |
| Dicts.PutGet | rlg-backend/app/services/retrieval_service.py:188 | After `d[k] = v`, k maps to v and every other key is unchanged. |
| Dicts.PutWellFormed | rlg-backend/app/services/retrieval_service.py:188 | Assignment keeps keys unique. |
| Dicts.Get | rlg-backend/app/services/retrieval_service.py:176 | `d.get(k)` is absent exactly when k is not a key, and otherwise is a stored value. |
| Dicts.KeysSnoc | rlg-backend/app/services/validation_service.py:71-74 | The keys of a longer pair list extend those of the shorter one. |
| Text.Words | rlg-backend/app/services/retrieval_service.py:99 | `re.findall(r'\b\w+\b')` gives non-empty runs of word characters. |
| Text.WordRun | rlg-backend/app/services/retrieval_service.py:99 | A word run is maximal. |
| Text.FindMarkers | rlg-backend/app/services/validation_service.py:132 | `re.findall(r'\[(\d+)\]')` gives non-empty digit strings. |
| Text.StripMarkers | rlg-backend/app/services/validation_service.py:155 | The text shrinks by exactly the characters of the markers `findall` sees (digits plus two brackets each), and text without markers is unchanged. |
| Text.MarkerLen | rlg-backend/app/services/validation_service.py:132 | A leading match of `\[\d+\]` is '[' then digits then ']', or there is none. |
| Text.DigitRun | rlg-backend/app/services/validation_service.py:132 | A digit run is maximal. |
| Text.Strip | rlg-backend/app/services/validation_service.py:116 | `str.strip` gives a stripped slice of the input with only whitespace before and after it. It is empty exactly for blank input and is the identity on stripped strings. |
| Text.StripFacts | rlg-backend/app/services/validation_service.py:116 | Trimming both ends gives "" exactly for blank input. |
| Text.TrimLeft | rlg-backend/app/services/validation_service.py:116 | Trimming removes exactly the leading whitespace (the ASCII `\s` set, U+001C to U+001F included). |
| Text.TrimRight | rlg-backend/app/services/validation_service.py:116 | Trimming removes exactly the trailing whitespace (the ASCII `\s` set, U+001C to U+001F included). |
| Text.SpaceRun | rlg-backend/app/services/ingestion_service.py:250 | The length of the leading run of whitespace (the ASCII `\s` set, U+001C to U+001F included); the run is maximal. |
| Text.Split | rlg-backend/app/services/validation_service.py:116 | `s.split(c)` gives at least one piece, and no piece holds c. |
| Text.JoinSplit | rlg-backend/app/services/validation_service.py:116 | Joining the split pieces with the separator gives the string back. |
| Text.SplitJoin | rlg-backend/app/services/context_service.py:102-104 | Splitting joined separator-free lines gives the lines back. |
| Text.SplitNoSep | rlg-backend/app/services/validation_service.py:116 | A string without the separator splits into itself. |
| Text.SplitPrefix | rlg-backend/app/services/validation_service.py:116 | Splitting peels off the text before the first separator. |
| Text.JoinConcat | rlg-backend/app/services/context_service.py:88 | Joining a concatenation joins the two joins. |
| Text.JoinSnoc | rlg-backend/app/services/context_service.py:88 | Joining one more part appends the separator and the part. |
| Text.JoinContainsPart | rlg-backend/app/services/context_service.py:88 | Every part occurs in the join. |
| Text.ContainsIffOccurs | rlg-backend/app/services/validation_service.py:157 | `needle in hay` holds exactly when the needle occurs at some index. |
| Text.ContainsOccurs | rlg-backend/app/services/validation_service.py:157 | A contained needle occurs at some index. |
| Text.OccursContains | rlg-backend/app/services/validation_service.py:157 | A needle occurring at an index is contained. |
| Text.ContainsSlice | rlg-backend/app/services/validation_service.py:157 | A string contains its slices. |
| Text.ContainsInSuffix | rlg-backend/app/services/context_service.py:88 | A substring of the tail is a substring of the whole. |
| Text.NatToString | rlg-backend/app/services/context_service.py:60 | `str(n)` is a non-empty digit string. |
| Text.ParseNatToString | rlg-backend/app/services/validation_service.py:135 | `int(str(n)) == n`. |
| Text.PySlice | rlg-backend/app/utils/tokenizer.py:49 | `s[lo:hi]` is the plain slice for in-range bounds and never longer than s. |
| Text.PyTake | rlg-backend/app/services/context_service.py:50 | `s[:k]` is the first min(k, len) elements. |
| Text.LastIndexOf | rlg-backend/app/utils/tokenizer.py:94 | `rfind` gives the last index of the character, or -1. |
| Text.Zip | rlg-backend/app/api/query.py:143 | `zip` pairs elements up to the shorter length. |
| Text.FilterExact | rlg-backend/app/services/retrieval_service.py:100 | The filter keeps exactly the passing elements, in order and with their multiplicities. |
| Text.FilterNone | rlg-backend/app/services/retrieval_service.py:100 | Nothing passing gives []. |
| Text.FilterAll | rlg-backend/app/services/retrieval_service.py:100 | Everything passing keeps the whole sequence. |
| Text.SubseqMembers | rlg-backend/app/services/retrieval_service.py:100 | Members of a subsequence are members of the sequence. |

## Left out

- HTTP routing and handlers. This covers FastAPI, the streaming endpoint, `/stats`, the mapping of exceptions to HTTP errors, timing, and the `Query`/`Answer` records written to the database. These are I/O; only the decision branches of `ask_question` and `ask_extractive` are modelled.
- Database sessions, SQLite FTS5 and its `bm25()` scores. The chunk table is a sequence, the document table a map, and the full-text index a function from match expression and limit to rows (or failure).
- The embedding model, numpy and FAISS internals. Similarity is an uninterpreted cosine function clamped to [0,1]. The flat index's search is modelled as a stable top-k by inner product, so equal scores come in position order.
- `LLMService.generate`, streaming, `pull_model` and `is_available`. These are network clients; the language model is a parameter from prompt to text.
- PDF, DOCX, HTML and OCR extraction, file reading, and the SHA-256 file and content hashes. These are foreign parsers and cryptography. For the same reason, `ingest_file` and the routing in `_process_document` are left out. The chunker's paragraph regex `\n\s*\n` and sentence regex `(?<=[.!?])\s+` are inputs: a paragraph list and a sentence-splitter function.
- `scoring.bm25_score`, which uses logarithms and float division.
- `expand_context_window` and `get_context_window`, which are database queries.
- The singleton lock, `_save_index`, `get_stats` and the loading of a saved index. These are concurrency and persistence.
- Floating point: scores are exact reals. Rounding, NaN and infinities are not modelled.
- Unicode: character classes (`\w`, `\s`, `\d`, `str.lower`, `str.upper`, `str.strip`) are ASCII-only. Whitespace is the ASCII set Python uses: space, tab to carriage return, and U+001C to U+001F.
- Validation.SplitSentences: its contract only states that sentences are stripped and non-empty. The exact regex behaviour is in its body (`MarkBreaks`) and in `SplitSentencesEmpty` and `SingleSentence`.
- Context.BuildGroundedPrompt: its contract states only the rules-and-context prefix. The citation key is specified by `CitationGuideLines`, and the rest of the template is in its body.
- Extractive.ExtractivePrompt: its contract states only the prefix and the closing cue, not the question line between them.
- VectorIndex.Search: it requires `top_k ≥ 1` for a non-empty index because FAISS rejects k = 0. The source always passes twice the retrieval depth. The hit count is stated exactly, as min(top_k, size), only for an index whose id list is in sync with its vectors; otherwise it is only bounded by that.
- VectorIndex.RemoveChunks: it requires the id list and the vectors to be in sync. The source assumes this but does not check it.
- Query.ExtractiveRespond: `ask_extractive` has no empty-context check, as in the source. With an empty context it asks the model anyway.
- Tokenizer.Tokenize: its contract states the token shape. That the tokens are the underscore-free word runs of the lowercased text is in its body, with `TokenizeJoinedTokens` as its round trip.
