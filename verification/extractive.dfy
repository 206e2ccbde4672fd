/** Parsing of an extractive answer: the quoted passages with their citation
    markers are found in the model's response, the ones citing a context
    chunk that exists are kept, and each is checked to occur in the cited
    chunk. */
module Extractive {
  import opened Wrappers
  import opened Text
  import opened Context

  datatype Quote = Quote(quote: string, citation: string, source: string, verified: bool)

  /** The parsed response. The not-found result carries no `all_verified`
      entry; it is `false` here. */
  datatype ExtractiveResult = ExtractiveResult(answer: Option<string>, found: bool, quotes: seq<Quote>, allVerified: bool)

  const NotFoundMark: string := "NOT_FOUND"

  // ---------------------------------------------------------------------------
  // The quote regex `"([^"]+)"\s*\[(\d+)\]`

  /** Length of the run of non-'"' characters at the start of `s`. */
  function NonQuoteRun(s: string): (n: nat)
    ensures n <= |s|
    ensures forall i :: 0 <= i < n ==> s[i] != '"'
    ensures n == |s| || s[n] == '"'
    decreases |s|
  {
    if |s| > 0 && s[0] != '"' then
      var n := 1 + NonQuoteRun(s[1..]);
      assert forall i :: 1 <= i < n ==> s[i] == s[1..][i - 1];
      n
    else 0
  }

  /** `s` starts with a match of the quote regex of length `n` whose
      quoted text is `q` and whose citation digits are `d`. */
  predicate QuoteMatch(s: string, q: string, d: string, n: nat) {
    0 < n <= |s| && WellFormedQuote((q, d)) && |q| + |d| + 4 <= n
    && s[1..|q| + 1] == q && s[n - |d| - 1..n - 1] == d
  }

  /** A match of the quote regex at the start of `s`: the quoted text, the
      citation digits and the length of the match. Each repetition can only
      end where it stops (a closing '"' after the non-quote run, '[' after
      the whitespace, ']' after the digits), so backtracking never finds
      another match. */
  function QuoteAt(s: string): (r: Option<(string, string, nat)>)
    ensures r.Some? ==> QuoteMatch(s, r.value.0, r.value.1, r.value.2)
  {
    if |s| == 0 || s[0] != '"' then None
    else
      var a := NonQuoteRun(s[1..]);
      if a == 0 || a + 1 >= |s| then None
      else
        var rest := s[a + 2..];
        var w := SpaceRun(rest);
        var m := MarkerLen(rest[w..]);
        if m == 0 then None
        else Some(MatchOf(s, a, w, m))
  }

  /** The match once the three runs are known. */
  function MatchOf(s: string, a: nat, w: nat, m: nat): (r: (string, string, nat))
    requires 0 < a && a + 1 < |s| && NonQuoteRun(s[1..]) == a
    requires w <= |s[a + 2..]| && MarkerLen(s[a + 2..][w..]) == m > 0
    ensures QuoteMatch(s, r.0, r.1, r.2)
  {
    QuoteSlices(s, a, w, m);
    (s[1..a + 1], s[a + 2..][w..][1..m - 1], a + 2 + w + m)
  }

  /** Where the quoted text and the digits of a match lie in `s`. */
  lemma QuoteSlices(s: string, a: nat, w: nat, m: nat)
    requires 0 < a && a + 1 < |s| && NonQuoteRun(s[1..]) == a
    requires w <= |s[a + 2..]| && 2 <= m <= |s[a + 2..][w..]|
    ensures '"' !in s[1..a + 1]
    ensures s[a + 2..][w..][1..m - 1] == s[a + 3 + w..a + 1 + w + m]
  {
    var q := s[1..a + 1];
    assert forall i :: 0 <= i < |q| ==> q[i] == s[1..][i];
    var d := s[a + 2..][w..][1..m - 1];
    assert forall i :: 0 <= i < |d| ==> d[i] == s[a + 3 + w + i];
  }

  /** `re.findall(quote_pattern, response)`: (quote, digits) pairs in order. */
  function FindQuotes(s: string): (r: seq<(string, string)>)
    ensures forall i :: 0 <= i < |r| ==> |r[i].0| > 0 && '"' !in r[i].0 && |r[i].1| > 0 && AllDigits(r[i].1)
    decreases |s|
  {
    if |s| == 0 then []
    else
      match QuoteAt(s)
      case Some((q, d, n)) => [(q, d)] + FindQuotes(s[n..])
      case None => FindQuotes(s[1..])
  }

  /** A quote as the prompt asks for it: `"text" [n]`. */
  function Render(q: string, d: string): string {
    "\"" + q + "\" [" + d + "]"
  }

  function RenderAll(qs: seq<(string, string)>): string
    decreases |qs|
  {
    if |qs| == 0 then "" else Render(qs[0].0, qs[0].1) + RenderAll(qs[1..])
  }

  predicate WellFormedQuote(qd: (string, string)) {
    |qd.0| > 0 && '"' !in qd.0 && |qd.1| > 0 && AllDigits(qd.1)
  }

  lemma NonQuoteRunOf(q: string, x: string)
    requires '"' !in q
    ensures NonQuoteRun(q + "\"" + x) == |q|
  {
    var t := q + "\"" + x;
    assert forall i :: 0 <= i < |q| ==> t[i] == q[i];
    assert t[|q|] == '"';
  }

  lemma DigitRunOf(d: string, x: string)
    requires AllDigits(d)
    ensures DigitRun(d + "]" + x) == |d|
  {
    var t := d + "]" + x;
    assert forall i :: 0 <= i < |d| ==> t[i] == d[i];
    assert t[|d|] == ']';
  }

  lemma MarkerLenOf(d: string, x: string)
    requires |d| > 0 && AllDigits(d)
    ensures MarkerLen("[" + d + "]" + x) == |d| + 2
  {
    var u := "[" + d + "]" + x;
    assert u[1..] == d + "]" + x;
    DigitRunOf(d, x);
  }

  /** QuoteAt once the three runs are known. */
  lemma QuoteAtRuns(s: string, a: nat, w: nat, m: nat)
    requires 0 < a && a + 1 < |s| && s[0] == '"'
    requires NonQuoteRun(s[1..]) == a
    requires SpaceRun(s[a + 2..]) == w
    requires MarkerLen(s[a + 2..][w..]) == m > 0
    ensures QuoteAt(s) == Some((s[1..a + 1], s[a + 2..][w..][1..m - 1], a + 2 + w + m))
  {
  }

  lemma RenderShape(q: string, d: string, rest: string)
    ensures var s := Render(q, d) + rest;
            s[0] == '"' && s[1..] == q + "\"" + (" " + ("[" + d + "]" + rest))
            && s[|q| + 2..] == " " + ("[" + d + "]" + rest)
            && |s| == |Render(q, d)| + |rest| && |Render(q, d)| == |q| + |d| + 5
  {
    var s := Render(q, d) + rest;
    assert s == "\"" + (q + "\"" + (" " + ("[" + d + "]" + rest)));
  }

  /** The three runs of a rendered quote: the quoted text, one space and
      the bracketed digits. */
  lemma RenderRuns(q: string, d: string, rest: string)
    requires WellFormedQuote((q, d))
    ensures var s := Render(q, d) + rest;
            && |q| + 1 < |s| && s[0] == '"'
            && NonQuoteRun(s[1..]) == |q|
            && SpaceRun(s[|q| + 2..]) == 1
            && MarkerLen(s[|q| + 2..][1..]) == |d| + 2
            && s[1..|q| + 1] == q
            && s[|q| + 2..][1..][1..|d| + 1] == d
            && |Render(q, d)| == |q| + |d| + 5
  {
    var tail := "[" + d + "]" + rest;
    var s := Render(q, d) + rest;
    RenderShape(q, d, rest);
    NonQuoteRunOf(q, " " + tail);
    var r := s[|q| + 2..];
    assert SpaceRun(r) == 1 by {
      assert r[0] == ' ' && r[1] == '[';
    }
    assert r[1..] == tail;
    MarkerLenOf(d, rest);
    assert s[1..|q| + 1] == q by {
      assert s[1..][..|q|] == q;
    }
    assert tail[1..|d| + 1] == d;
  }

  lemma QuoteAtRender(q: string, d: string, rest: string)
    requires WellFormedQuote((q, d))
    ensures QuoteAt(Render(q, d) + rest) == Some((q, d, |Render(q, d)|))
  {
    var s := Render(q, d) + rest;
    RenderRuns(q, d, rest);
    QuoteAtRuns(s, |q|, 1, |d| + 2);
  }

  /** Reading back rendered quotes gives the quotes. */
  lemma {:induction false} FindQuotesRendered(qs: seq<(string, string)>)
    requires forall i :: 0 <= i < |qs| ==> WellFormedQuote(qs[i])
    ensures FindQuotes(RenderAll(qs)) == qs
    decreases |qs|
  {
    if |qs| > 0 {
      var head := Render(qs[0].0, qs[0].1);
      var rest := RenderAll(qs[1..]);
      var s := head + rest;
      assert RenderAll(qs) == s;
      QuoteAtRender(qs[0].0, qs[0].1, rest);
      FindQuotesStep(s, qs[0].0, qs[0].1, |head|);
      FindQuotesRendered(qs[1..]);
      assert s[|head|..] == rest;
      assert [qs[0]] + qs[1..] == qs;
    }
  }

  lemma FindQuotesStep(s: string, q: string, d: string, n: nat)
    requires QuoteAt(s) == Some((q, d, n))
    ensures FindQuotes(s) == [(q, d)] + FindQuotes(s[n..])
  {
    assert |s| > 0;
  }

  // ---------------------------------------------------------------------------
  // Checking the quotes

  /** The citation number is between 1 and the number of context chunks. */
  predicate CitesChunk(n: nat, qd: (string, string)) {
    AllDigits(qd.1) && 1 <= ParseNat(qd.1) <= n
  }

  function CitesChunkOf(n: nat): ((string, string)) -> bool {
    (qd: (string, string)) => CitesChunk(n, qd)
  }

  /** The quote checked against the chunk it cites. */
  function CheckQuote(qd: (string, string), chunks: seq<ContextChunk>): (r: Quote)
    requires CitesChunk(|chunks|, qd)
    ensures r.quote == qd.0 && r.citation == "[" + qd.1 + "]"
    ensures r.source == chunks[ParseNat(qd.1) - 1].citation
    ensures r.verified <==> Contains(Lower(chunks[ParseNat(qd.1) - 1].content), Lower(qd.0))
  {
    var chunk := chunks[ParseNat(qd.1) - 1];
    Quote(qd.0, "[" + qd.1 + "]", chunk.citation, Contains(Lower(chunk.content), Lower(qd.0)))
  }

  function CheckQuotes(kept: seq<(string, string)>, chunks: seq<ContextChunk>): (r: seq<Quote>)
    requires forall i :: 0 <= i < |kept| ==> CitesChunk(|chunks|, kept[i])
    ensures |r| == |kept|
    ensures forall i :: 0 <= i < |r| ==> r[i] == CheckQuote(kept[i], chunks)
  {
    seq(|kept|, i requires 0 <= i < |kept| => CheckQuote(kept[i], chunks))
  }

  function AllVerified(quotes: seq<Quote>): (b: bool)
    ensures b <==> |quotes| > 0 && forall i :: 0 <= i < |quotes| ==> quotes[i].verified
  {
    |quotes| > 0 && forall i :: 0 <= i < |quotes| ==> quotes[i].verified
  }

  // ---------------------------------------------------------------------------
  // _build_extractive_prompt

  const ExtractiveRules: string :=
    "You are an EXTRACTIVE question answering system. You MUST follow these rules:\n\n"
    + "CRITICAL RULES:\n"
    + "1. Your answer MUST use EXACT QUOTES from the sources\n"
    + "2. Place quotes inside \"quotation marks\"\n"
    + "3. Add citation markers [1], [2] after each quote\n"
    + "4. If you cannot find the answer in the sources, respond: \"NOT_FOUND\"\n"
    + "5. Do NOT paraphrase - use the exact words from sources\n\n"

  const ExtractiveCue: string := "\n\nEXTRACTIVE ANSWER (quotes with citations only):"

  /** `_build_extractive_prompt`: the rules, the context, the question and
      the answer cue, in that order. */
  function ExtractivePrompt(context: string, question: string): (r: string)
    ensures ExtractiveRules + context <= r
    ensures |r| >= |ExtractiveCue| && r[|r| - |ExtractiveCue|..] == ExtractiveCue
  {
    ExtractiveRules + context + "\n\nQUESTION: " + question + ExtractiveCue
  }

  /** `_parse_extractive_response` */
  function ParseExtractiveResponse(response: string, chunks: seq<ContextChunk>): (r: ExtractiveResult)
    ensures Contains(Upper(response), NotFoundMark) ==> r == ExtractiveResult(None, false, [], false)
    ensures !Contains(Upper(response), NotFoundMark) ==>
              var kept := Filter(CitesChunkOf(|chunks|), FindQuotes(response));
              r.found && r.answer == Some(response)
              && (forall i :: 0 <= i < |kept| ==> CitesChunk(|chunks|, kept[i]))
              && r.quotes == CheckQuotes(kept, chunks)
    ensures r.allVerified <==> |r.quotes| > 0 && forall i :: 0 <= i < |r.quotes| ==> r.quotes[i].verified
  {
    if Contains(Upper(response), NotFoundMark) then ExtractiveResult(None, false, [], false)
    else
      var kept := Filter(CitesChunkOf(|chunks|), FindQuotes(response));
      assert forall i :: 0 <= i < |kept| ==> CitesChunkOf(|chunks|)(kept[i]);
      var quotes := CheckQuotes(kept, chunks);
      ExtractiveResult(Some(response), true, quotes, AllVerified(quotes))
  }

  /** The kept quotes are the found ones, in order, minus exactly those
      whose citation number lies outside 1..len(context_chunks). */
  lemma KeptQuotes(response: string, chunks: seq<ContextChunk>)
    ensures var found := FindQuotes(response);
            var kept := Filter(CitesChunkOf(|chunks|), found);
            IsSubseq(kept, found)
            && forall i :: 0 <= i < |found| ==> (found[i] in kept <==> CitesChunk(|chunks|, found[i]))
  {
    var found := FindQuotes(response);
    var p := CitesChunkOf(|chunks|);
    var kept := Filter(p, found);
    FilterExact(p, found);
    forall i | 0 <= i < |found| ensures found[i] in kept <==> CitesChunk(|chunks|, found[i]) {
      if p(found[i]) {
        assert multiset(found)[found[i]] > 0;
      }
    }
  }

  /** A quote copied verbatim from the chunk it cites is verified. */
  lemma VerbatimQuoteVerified(qd: (string, string), chunks: seq<ContextChunk>)
    requires CitesChunk(|chunks|, qd)
    requires Contains(chunks[ParseNat(qd.1) - 1].content, qd.0)
    ensures CheckQuote(qd, chunks).verified
  {
    LowerContains(chunks[ParseNat(qd.1) - 1].content, qd.0);
  }

  /** Lowercasing keeps a substring a substring. */
  lemma LowerContains(hay: string, needle: string)
    requires Contains(hay, needle)
    ensures Contains(Lower(hay), Lower(needle))
  {
    ContainsIffOccurs(hay, needle);
    var k :| OccursAt(hay, needle, k);
    assert Lower(hay)[k..k + |needle|] == Lower(needle);
    ContainsSlice(Lower(hay), k, k + |needle|);
  }
}
