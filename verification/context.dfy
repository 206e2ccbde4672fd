/** Context assembly for the language model: deduplication of retrieved
    chunks, consecutive citation markers `[1]..[n]`, the token budget, the
    citation strings, and the grounded prompt with its citation key. */
module Context {
  import opened Text
  import opened Wrappers
  import opened ChunkModel
  import opened Retrieval

  datatype ContextChunk = ContextChunk(marker: string, content: string, citation: string, chunkId: string)

  const DefaultMaxTokens: int := 4000

  const ContextHeader: string := "REFERENCE SOURCES (use citation markers in your answer):\n\n"

  // ---------------------------------------------------------------------------
  // Deduplication

  /** Chunks count as duplicates when their first 100 characters agree. */
  function ContentKey(c: RetrievedChunk): string { PyTake(c.content, 100) }

  predicate HasKey(chunks: seq<RetrievedChunk>, k: string) {
    exists j :: 0 <= j < |chunks| && ContentKey(chunks[j]) == k
  }

  /** The first chunk with content key `k`. */
  function FirstWithKey(chunks: seq<RetrievedChunk>, k: string): (c: RetrievedChunk)
    requires HasKey(chunks, k)
    ensures ContentKey(c) == k
    decreases |chunks|
  {
    if ContentKey(chunks[0]) == k then chunks[0]
    else
      assert HasKey(chunks[1..], k) by {
        var j :| 0 <= j < |chunks| && ContentKey(chunks[j]) == k;
        assert chunks[1..][j - 1] == chunks[j];
      }
      FirstWithKey(chunks[1..], k)
  }

  function DedupFrom(chunks: seq<RetrievedChunk>, seen: set<string>): (r: seq<RetrievedChunk>)
    ensures |r| <= |chunks|
    ensures forall i :: 0 <= i < |r| ==> ContentKey(r[i]) !in seen
    ensures forall i, j :: 0 <= i < j < |r| ==> ContentKey(r[i]) != ContentKey(r[j])
    decreases |chunks|
  {
    if |chunks| == 0 then []
    else
      var k := ContentKey(chunks[0]);
      if k in seen then DedupFrom(chunks[1..], seen)
      else [chunks[0]] + DedupFrom(chunks[1..], seen + {k})
  }

  lemma {:induction false} DedupFromSubseq(chunks: seq<RetrievedChunk>, seen: set<string>)
    ensures IsSubseq(DedupFrom(chunks, seen), chunks)
    decreases |chunks|
  {
    if |chunks| > 0 {
      var k := ContentKey(chunks[0]);
      if k in seen {
        DedupFromSubseq(chunks[1..], seen);
        var r := DedupFrom(chunks[1..], seen);
        if |r| > 0 {
          SubseqSkip(r, chunks);
        }
      } else {
        DedupFromSubseq(chunks[1..], seen + {k});
        var r := DedupFrom(chunks, seen);
        assert r[1..] == DedupFrom(chunks[1..], seen + {k});
      }
    }
  }

  lemma SubseqSkip<T>(a: seq<T>, b: seq<T>)
    requires |b| > 0 && IsSubseq(a, b[1..])
    ensures IsSubseq(a, b)
  {
  }

  lemma {:induction false} DedupFromCovers(chunks: seq<RetrievedChunk>, seen: set<string>, j: nat)
    requires j < |chunks| && ContentKey(chunks[j]) !in seen
    ensures exists i :: 0 <= i < |DedupFrom(chunks, seen)| && ContentKey(DedupFrom(chunks, seen)[i]) == ContentKey(chunks[j])
    decreases |chunks|
  {
    var k := ContentKey(chunks[0]);
    var r := DedupFrom(chunks, seen);
    if k in seen {
      assert chunks[1..][j - 1] == chunks[j];
      DedupFromCovers(chunks[1..], seen, j - 1);
    } else if ContentKey(chunks[j]) == k {
      assert ContentKey(r[0]) == k;
    } else {
      assert chunks[1..][j - 1] == chunks[j];
      DedupFromCovers(chunks[1..], seen + {k}, j - 1);
      var rest := DedupFrom(chunks[1..], seen + {k});
      var i :| 0 <= i < |rest| && ContentKey(rest[i]) == ContentKey(chunks[j]);
      assert r[i + 1] == rest[i];
    }
  }

  lemma {:induction false} DedupFromKeepsFirst(chunks: seq<RetrievedChunk>, seen: set<string>, i: nat)
    requires i < |DedupFrom(chunks, seen)|
    ensures var r := DedupFrom(chunks, seen);
            HasKey(chunks, ContentKey(r[i])) && r[i] == FirstWithKey(chunks, ContentKey(r[i]))
    decreases |chunks|
  {
    var k := ContentKey(chunks[0]);
    var r := DedupFrom(chunks, seen);
    if k in seen {
      DedupFromKeepsFirst(chunks[1..], seen, i);
      HasKeyTail(chunks, ContentKey(r[i]));
    } else if i > 0 {
      var rest := DedupFrom(chunks[1..], seen + {k});
      assert r[i] == rest[i - 1];
      DedupFromKeepsFirst(chunks[1..], seen + {k}, i - 1);
      HasKeyTail(chunks, ContentKey(r[i]));
    }
  }

  lemma HasKeyTail(chunks: seq<RetrievedChunk>, k: string)
    requires |chunks| > 0 && HasKey(chunks[1..], k)
    ensures HasKey(chunks, k)
  {
    var j :| 0 <= j < |chunks[1..]| && ContentKey(chunks[1..][j]) == k;
    assert chunks[j + 1] == chunks[1..][j];
  }

  /** Deduplication by the first 100 characters. */
  function Dedup(chunks: seq<RetrievedChunk>): (r: seq<RetrievedChunk>)
    ensures |r| <= |chunks|
    ensures forall i, j :: 0 <= i < j < |r| ==> ContentKey(r[i]) != ContentKey(r[j])
  {
    DedupFrom(chunks, {})
  }

  /** Deduplication keeps order, keeps the first chunk with each key, and
      represents every key once. */
  lemma DedupKeepsFirstOfEachKey(chunks: seq<RetrievedChunk>)
    ensures IsSubseq(Dedup(chunks), chunks)
    ensures forall j :: 0 <= j < |chunks| ==>
              exists i :: 0 <= i < |Dedup(chunks)| && ContentKey(Dedup(chunks)[i]) == ContentKey(chunks[j])
    ensures forall i :: 0 <= i < |Dedup(chunks)| ==>
              HasKey(chunks, ContentKey(Dedup(chunks)[i])) && Dedup(chunks)[i] == FirstWithKey(chunks, ContentKey(Dedup(chunks)[i]))
  {
    assert Dedup(chunks) == DedupFrom(chunks, {});
    DedupFromSubseq(chunks, {});
    forall j | 0 <= j < |chunks|
      ensures exists i :: 0 <= i < |Dedup(chunks)| && ContentKey(Dedup(chunks)[i]) == ContentKey(chunks[j])
    {
      DedupFromCovers(chunks, {}, j);
    }
    forall i | 0 <= i < |Dedup(chunks)|
      ensures HasKey(chunks, ContentKey(Dedup(chunks)[i])) && Dedup(chunks)[i] == FirstWithKey(chunks, ContentKey(Dedup(chunks)[i]))
    {
      DedupFromKeepsFirst(chunks, {}, i);
    }
  }

  // ---------------------------------------------------------------------------
  // Markers, citations and the budget

  /** The citation marker `[i]`. */
  function Marker(i: nat): string { "[" + NatToString(i) + "]" }

  /** The document name, then `p.N` for a truthy page, then the section mark
      and title for a non-empty section, joined by " | ". The name reads
      back as the stripped text before the first '|'. */
  function Citation(c: RetrievedChunk): (r: string)
    ensures '|' !in c.documentName && IsStripped(c.documentName) ==> Strip(Split(r, '|')[0]) == c.documentName
    ensures '|' !in r ==> r == c.documentName
  {
    CitationReadsBack(c.documentName, c.pageNumber, c.sectionTitle);
    Join(" | ", CitationParts(Some(c.documentName), c.pageNumber, c.sectionTitle))
  }

  lemma CitationReadsBack(name: string, page: Option<int>, section: Option<string>)
    ensures var j := Join(" | ", CitationParts(Some(name), page, section));
            && ('|' !in name && IsStripped(name) ==> Strip(Split(j, '|')[0]) == name)
            && ('|' !in j ==> j == name)
  {
    var parts := CitationParts(Some(name), page, section);
    if '|' !in name && IsStripped(name) {
      DocumentNameOfCitation(name, page, section);
    }
    if |parts| > 1 {
      var j := Join(" | ", parts);
      assert j == parts[0] + " | " + Join(" | ", parts[1..]);
      assert j[|parts[0]| + 1] == '|';
    }
  }

  /** The context's citation of a chunk is the citation the chunk model
      gives the same chunk of the same document. */
  lemma CitationAgreesWithChunk(c: RetrievedChunk, chunk: Chunk, doc: Document)
    ensures chunk.pageNumber == c.pageNumber && chunk.sectionTitle == c.sectionTitle && doc.filename == c.documentName ==>
              Citation(c) == GetCitation(chunk, Some(doc))
  {
  }

  /** The part of the context for the chunk numbered `i`. */
  function Formatted(c: RetrievedChunk, i: nat): string { Marker(i) + " " + c.content }

  /** Total length of the parts of the first `n` chunks. */
  function PartsLength(unique: seq<RetrievedChunk>, n: nat): nat
    requires n <= |unique|
  {
    if n == 0 then 0 else PartsLength(unique, n - 1) + |Formatted(unique[n - 1], n)|
  }

  /** The budget test for the chunk at position `j`: the estimate of the
      parts so far plus that of the new part must not exceed `maxTokens`. */
  predicate Fits(unique: seq<RetrievedChunk>, j: nat, maxTokens: int)
    requires j < |unique|
  {
    PartsLength(unique, j) / 4 + |Formatted(unique[j], j + 1)| / 4 <= maxTokens
  }

  function AdmittedFrom(unique: seq<RetrievedChunk>, j: nat, maxTokens: int): (n: nat)
    requires j <= |unique|
    requires forall t :: 0 <= t < j ==> Fits(unique, t, maxTokens)
    ensures j <= n <= |unique|
    ensures forall t :: 0 <= t < n ==> Fits(unique, t, maxTokens)
    ensures n < |unique| ==> !Fits(unique, n, maxTokens)
    decreases |unique| - j
  {
    if j == |unique| || !Fits(unique, j, maxTokens) then j
    else AdmittedFrom(unique, j + 1, maxTokens)
  }

  /** How many deduplicated chunks make it into the context: every one that
      fits, up to the first that does not. */
  function Admitted(unique: seq<RetrievedChunk>, maxTokens: int): (n: nat)
    ensures n <= |unique|
    ensures forall t :: 0 <= t < n ==> Fits(unique, t, maxTokens)
    ensures n < |unique| ==> !Fits(unique, n, maxTokens)
  {
    AdmittedFrom(unique, 0, maxTokens)
  }

  /** The admitted parts are estimated at most one token over the budget
      (the budget test floors the two estimates separately). */
  lemma AdmittedWithinBudget(unique: seq<RetrievedChunk>, maxTokens: int)
    requires Admitted(unique, maxTokens) > 0
    ensures PartsLength(unique, Admitted(unique, maxTokens)) / 4 <= maxTokens + 1
  {
    var n := Admitted(unique, maxTokens);
    assert Fits(unique, n - 1, maxTokens);
  }

  // ---------------------------------------------------------------------------
  // build_context

  datatype BuiltContext = BuiltContext(text: string, chunks: seq<ContextChunk>)

  function ContextParts(unique: seq<RetrievedChunk>, n: nat): (r: seq<string>)
    requires n <= |unique|
    ensures |r| == n
    ensures forall i :: 0 <= i < n ==> r[i] == Formatted(unique[i], i + 1)
  {
    seq(n, i requires 0 <= i < n => Formatted(unique[i], i + 1))
  }

  /** Each context chunk's marker, a space and its content. */
  function ChunkParts(cs: seq<ContextChunk>): (r: seq<string>)
    ensures |r| == |cs|
    ensures forall i :: 0 <= i < |cs| ==> r[i] == cs[i].marker + " " + cs[i].content
  {
    seq(|cs|, i requires 0 <= i < |cs| => cs[i].marker + " " + cs[i].content)
  }

  /** `build_context`: no chunks give an empty context; otherwise the
      deduplicated chunks are numbered from 1 and admitted while they fit,
      and the text is the header followed by each admitted chunk's marker
      and content, separated by blank lines. */
  function BuildContext(chunks: seq<RetrievedChunk>, maxTokens: int): (r: BuiltContext)
    ensures chunks == [] ==> r == BuiltContext("", [])
    ensures chunks != [] ==> ContextHeader <= r.text
    ensures chunks != [] ==>
              r.text == ContextHeader + Join("\n\n", ChunkParts(r.chunks))
    ensures var unique := Dedup(chunks);
            && |r.chunks| == Admitted(unique, maxTokens)
            && forall i :: 0 <= i < |r.chunks| ==>
                 && r.chunks[i].marker == Marker(i + 1)
                 && r.chunks[i].content == unique[i].content
                 && r.chunks[i].chunkId == unique[i].chunkId
                 && r.chunks[i].citation == Citation(unique[i])
  {
    if chunks == [] then BuiltContext("", [])
    else
      var unique := Dedup(chunks);
      var n := Admitted(unique, maxTokens);
      var parts := ContextParts(unique, n);
      var ctx := seq(n, i requires 0 <= i < n =>
        ContextChunk(Marker(i + 1), unique[i].content, Citation(unique[i]), unique[i].chunkId));
      assert parts == ChunkParts(ctx);
      BuiltContext(ContextHeader + Join("\n\n", parts), ctx)
  }

  /** Each admitted chunk's part, marker then content, occurs in the context
      text. */
  lemma ContextHoldsEveryPart(chunks: seq<RetrievedChunk>, maxTokens: int, i: nat)
    requires i < |BuildContext(chunks, maxTokens).chunks|
    ensures var r := BuildContext(chunks, maxTokens);
            Contains(r.text, r.chunks[i].marker + " " + r.chunks[i].content)
  {
    var unique := Dedup(chunks);
    var n := Admitted(unique, maxTokens);
    var parts := ContextParts(unique, n);
    var joined := Join("\n\n", parts);
    var text := ContextHeader + joined;
    var r := BuildContext(chunks, maxTokens);
    assert r.text == text;
    assert r.chunks[i].marker + " " + r.chunks[i].content == parts[i];
    JoinContainsPart("\n\n", parts, i);
    ContainsInSuffix(ContextHeader, joined, parts[i]);
  }

  lemma {:induction false} DigitRunOfDigits(d: string, rest: string)
    requires AllDigits(d)
    requires |rest| == 0 || !IsDigit(rest[0])
    ensures DigitRun(d + rest) == |d|
    decreases |d|
  {
    if |d| > 0 {
      assert (d + rest)[1..] == d[1..] + rest;
      DigitRunOfDigits(d[1..], rest);
    }
  }

  /** A marker is read back, by the `[digits]` scanner, as its number. */
  lemma MarkerRoundTrip(i: nat)
    ensures FindMarkers(Marker(i)) == [NatToString(i)]
    ensures ParseNat(NatToString(i)) == i
  {
    var d := NatToString(i);
    var m := Marker(i);
    assert m == "[" + (d + "]");
    assert m[1..] == d + "]";
    DigitRunOfDigits(d, "]");
    assert MarkerLen(m) == |d| + 2;
    assert m[1..|d| + 1] == d;
    assert m[|d| + 2..] == "";
    ParseNatToString(i);
  }

  // ---------------------------------------------------------------------------
  // build_grounded_prompt

  const PromptPreamble: string :=
    "You are a precise question-answering assistant. Your answers MUST be grounded in the provided"
    + " sources.\n\n"
    + "STRICT RULES:\n"
    + "1. ONLY use information from the REFERENCE SOURCES below\n"
    + "2. ALWAYS cite sources using the citation markers [1], [2], etc.\n"
    + "3. If information is not in the sources, say \"I cannot find this information in the provided"
    + " sources\"\n"
    + "4. NEVER make up facts or use external knowledge\n"
    + "5. Quote exact phrases when possible to maintain accuracy\n\n"

  function CitationLine(c: ContextChunk): string { c.marker + " = " + c.citation }

  function CitationLines(ctx: seq<ContextChunk>): (r: seq<string>)
    ensures |r| == |ctx|
    ensures forall i :: 0 <= i < |ctx| ==> r[i] == CitationLine(ctx[i])
  {
    seq(|ctx|, i requires 0 <= i < |ctx| => CitationLine(ctx[i]))
  }

  /** The citation key: one `marker = citation` line per context chunk. */
  function CitationGuide(ctx: seq<ContextChunk>): string {
    Join("\n", CitationLines(ctx))
  }

  /** `build_grounded_prompt` */
  function BuildGroundedPrompt(context: string, question: string, ctx: seq<ContextChunk>): (r: string)
    ensures PromptPreamble + context <= r
  {
    PromptPreamble + context + "\n\nCITATION KEY:\n" + CitationGuide(ctx)
    + "\n\nQUESTION: " + question + "\n\nANSWER (with citations):"
  }

  predicate NoNewline(s: string) { '\n' !in s }

  lemma NoNewlineConcat(a: string, b: string)
    requires NoNewline(a) && NoNewline(b)
    ensures NoNewline(a + b)
  {
    assert forall i :: 0 <= i < |a + b| ==> (a + b)[i] == (if i < |a| then a[i] else b[i - |a|]);
  }

  /** Splitting the citation key into lines gives exactly one line per
      context chunk, in order, when no marker or citation spans lines. */
  lemma CitationGuideLines(ctx: seq<ContextChunk>)
    requires |ctx| > 0
    requires forall i :: 0 <= i < |ctx| ==> NoNewline(ctx[i].marker) && NoNewline(ctx[i].citation)
    ensures Split(CitationGuide(ctx), '\n') == CitationLines(ctx)
    ensures forall i :: 0 <= i < |ctx| ==> Split(CitationGuide(ctx), '\n')[i] == ctx[i].marker + " = " + ctx[i].citation
  {
    var lines := CitationLines(ctx);
    forall i | 0 <= i < |lines| ensures '\n' !in lines[i] {
      NoNewlineConcat(ctx[i].marker, " = ");
      NoNewlineConcat(ctx[i].marker + " = ", ctx[i].citation);
    }
    assert "\n" == ['\n'];
    SplitJoin(lines, '\n');
  }
}
