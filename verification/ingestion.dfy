/** The ingestion chunker: the file-type table, size-bounded packing of
    paragraphs and sentences into chunks, the merger of small chunks and
    the Markdown heading rule. File parsing and hashing stay outside. */
module Ingestion {
  import opened Wrappers
  import opened Text
  import opened Config
  import opened ChunkModel

  // ---------------------------------------------------------------------------
  // _detect_file_type

  datatype DocumentType = Pdf | Docx | Txt | Html | Xlsx | Markdown | Image {
    function Value(): string {
      match this
      case Pdf => "pdf"
      case Docx => "docx"
      case Txt => "txt"
      case Html => "html"
      case Xlsx => "xlsx"
      case Markdown => "md"
      case Image => "image"
    }
  }

  /** `PurePath.suffix` of the path's final component (`filepath.name`):
      from the last '.' on, unless that dot starts the name or ends it.
      The argument is that final component, not the whole path, so a
      hidden file such as ".md" inside any directory has no suffix. */
  function Suffix(name: string): (r: string)
    ensures r == "" || (r[0] == '.' && |r| >= 2 && |r| < |name| && r == name[|name| - |r|..] && '.' !in r[1..])
  {
    var i := LastIndexOf(name, '.');
    if 0 < i < |name| - 1 then name[i..] else ""
  }

  /** The extension table. */
  function ExtensionType(ext: string): Option<DocumentType> {
    if ext == ".pdf" then Some(Pdf)
    else if ext == ".docx" || ext == ".doc" then Some(Docx)
    else if ext == ".txt" then Some(Txt)
    else if ext == ".html" || ext == ".htm" then Some(Html)
    else if ext == ".xlsx" || ext == ".xls" then Some(Xlsx)
    else if ext == ".md" then Some(Markdown)
    else if ext == ".png" || ext == ".jpg" || ext == ".jpeg" then Some(Image)
    else None
  }

  /** `_detect_file_type` of a path whose final component is `name`: the
      lower-cased suffix looked up in the table, with text as the
      fallback. */
  function DetectFileType(name: string): (r: DocumentType)
    ensures ExtensionType(Lower(Suffix(name))).Some? ==> r == ExtensionType(Lower(Suffix(name))).value
    ensures ExtensionType(Lower(Suffix(name))).None? ==> r == Txt
  {
    match ExtensionType(Lower(Suffix(name)))
    case Some(t) => t
    case None => Txt
  }

  /** The lookup ignores letter case. */
  lemma DetectIgnoresCase(a: string, b: string)
    requires Lower(Suffix(a)) == Lower(Suffix(b))
    ensures DetectFileType(a) == DetectFileType(b)
  {
  }

  /** An upper-case extension is recognised. */
  lemma DetectUpperCase()
    ensures DetectFileType("a.PDF") == Pdf
  {
    var n := "a.PDF";
    assert n[1] == '.' && n[2] != '.' && n[3] != '.' && n[4] != '.';
    assert LastIndexOf(n, '.') == 1;
    assert Lower(".PDF") == ".pdf";
  }

  /** Only the last extension counts. */
  lemma DetectLastSuffix()
    ensures DetectFileType("a.md.gz") == Txt
  {
    var n := "a.md.gz";
    assert n[4] == '.' && n[5] != '.' && n[6] != '.';
    assert LastIndexOf(n, '.') == 4;
    assert Lower(".gz") == ".gz";
  }

  /** A name that only starts with a dot has no suffix. */
  lemma DetectHiddenFile()
    ensures DetectFileType(".md") == Txt
  {
    var n := ".md";
    assert n[0] == '.' && n[1] != '.' && n[2] != '.';
    assert LastIndexOf(n, '.') == 0;
  }

  // ---------------------------------------------------------------------------
  // Chunks produced by ingestion

  /** A chunk as ingestion creates it (before it is stored). */
  datatype NewChunk = NewChunk(
    content: string,
    chunkType: ChunkType,
    pageNumber: Option<int>,
    headingLevel: Option<int>,
    sectionTitle: Option<string>,
    sequenceIndex: Option<nat>,
    confidenceWeight: real)

  const HeadingWeight: real := 1.2
  const DefaultWeight: real := 1.0

  // ---------------------------------------------------------------------------
  // Groups of pieces: a chunk's content is its pieces joined by spaces.

  function Flatten<T>(gs: seq<seq<T>>): seq<T>
    decreases |gs|
  {
    if |gs| == 0 then [] else Flatten(gs[..|gs| - 1]) + gs[|gs| - 1]
  }

  lemma FlattenSnoc<T>(gs: seq<seq<T>>, g: seq<T>)
    ensures Flatten(gs + [g]) == Flatten(gs) + g
  {
    assert (gs + [g])[..|gs|] == gs;
  }

  predicate NonEmptyGroups<T>(gs: seq<seq<T>>) { forall i :: 0 <= i < |gs| ==> |gs[i]| > 0 }

  /** Joining each group and then the results gives the same string as
      joining all pieces. */
  lemma {:induction false} JoinFlatten(sep: string, gs: seq<seq<string>>)
    requires NonEmptyGroups(gs)
    ensures Join(sep, JoinEach(sep, gs)) == Join(sep, Flatten(gs))
    decreases |gs|
  {
    if |gs| > 0 {
      var init := gs[..|gs| - 1];
      var last := gs[|gs| - 1];
      JoinFlatten(sep, init);
      assert JoinEach(sep, gs) == JoinEach(sep, init) + [Join(sep, last)];
      if |init| > 0 {
        JoinSnoc(sep, JoinEach(sep, init), Join(sep, last));
        assert |Flatten(init)| > 0 by { FlattenLast(init); }
        JoinConcat(sep, Flatten(init), last);
      } else {
        assert Flatten(gs) == last;
      }
    }
  }

  lemma FlattenLast<T>(gs: seq<seq<T>>)
    requires |gs| > 0 && NonEmptyGroups(gs)
    ensures |Flatten(gs)| >= |gs[|gs| - 1]| > 0
  {
  }

  function JoinEach(sep: string, gs: seq<seq<string>>): (r: seq<string>)
    ensures |r| == |gs|
    ensures forall i :: 0 <= i < |gs| ==> r[i] == Join(sep, gs[i])
  {
    seq(|gs|, i requires 0 <= i < |gs| => Join(sep, gs[i]))
  }

  /** Joining never produces the empty string from non-empty pieces. */
  lemma JoinNonEmpty(sep: string, g: seq<string>)
    requires |g| > 0 && g[0] != ""
    ensures Join(sep, g) != ""
  {
  }

  lemma JoinLength(sep: string, g: seq<string>, x: string)
    requires |g| > 0
    ensures |Join(sep, g + [x])| == |Join(sep, g)| + |sep| + |x|
  {
    JoinSnoc(sep, g, x);
  }

  // ---------------------------------------------------------------------------
  // _chunk_text_with_structure

  /** The packing loop sees pieces to add and the forced flush before the
      sentences of an oversized paragraph. */
  datatype Step = Flush | Add(piece: string)

  /** Every piece added is stripped and non-blank. */
  predicate GoodSteps(steps: seq<Step>) {
    forall i :: 0 <= i < |steps| ==> steps[i].Add? ==> steps[i].piece != "" && IsStripped(steps[i].piece)
  }

  lemma GoodStepsConcat(a: seq<Step>, b: seq<Step>)
    requires GoodSteps(a) && GoodSteps(b)
    ensures GoodSteps(a + b)
    ensures NoFlush(a) && NoFlush(b) ==> NoFlush(a + b)
  {
    assert forall i :: |a| <= i < |a + b| ==> (a + b)[i] == b[i - |a|];
  }

  /** The stripped, non-blank sentences of a paragraph. */
  function SentenceSteps(sentences: seq<string>): (r: seq<Step>)
    ensures NoFlush(r)
    ensures GoodSteps(r)
    decreases |sentences|
  {
    if |sentences| == 0 then []
    else
      var head := PieceStep(sentences[0]);
      var rest := SentenceSteps(sentences[1..]);
      GoodStepsConcat(head, rest);
      head + rest
  }

  /** A stripped text as a piece, or nothing when it is blank. */
  function PieceStep(text: string): (r: seq<Step>)
    ensures NoFlush(r) && GoodSteps(r)
    ensures AllSpace(text) <==> r == []
  {
    var s := Strip(text);
    if s == "" then [] else [Add(s)]
  }

  /** What one paragraph contributes: nothing when blank, the stripped
      paragraph when it fits, otherwise a flush and then its sentences. */
  function ParagraphSteps(para: string, splitSentences: string -> seq<string>): (r: seq<Step>)
    ensures GoodSteps(r)
    ensures |Strip(para)| <= ChunkSize ==> NoFlush(r)
    ensures AllSpace(para) ==> r == []
    ensures !AllSpace(para) && |Strip(para)| <= ChunkSize ==> r == [Add(Strip(para))]
  {
    var p := Strip(para);
    if p == "" then []
    else if |p| > ChunkSize then
      GoodStepsConcat([Flush], SentenceSteps(splitSentences(p)));
      [Flush] + SentenceSteps(splitSentences(p))
    else [Add(p)]
  }

  function TextSteps(paragraphs: seq<string>, splitSentences: string -> seq<string>): (r: seq<Step>)
    ensures GoodSteps(r)
    ensures ShortParagraphs(paragraphs) ==> NoFlush(r)
    decreases |paragraphs|
  {
    if |paragraphs| == 0 then []
    else
      var a := ParagraphSteps(paragraphs[0], splitSentences);
      var b := TextSteps(paragraphs[1..], splitSentences);
      GoodStepsConcat(a, b);
      ShortTail(paragraphs);
      a + b
  }

  lemma ShortTail(paragraphs: seq<string>)
    requires |paragraphs| > 0
    ensures ShortParagraphs(paragraphs) ==> |Strip(paragraphs[0])| <= ChunkSize && ShortParagraphs(paragraphs[1..])
  {
    assert forall j :: 0 <= j < |paragraphs[1..]| ==> paragraphs[1..][j] == paragraphs[j + 1];
  }

  /** No paragraph is longer than the chunk size once stripped, so no
      paragraph is split into sentences. */
  predicate ShortParagraphs(paragraphs: seq<string>) {
    forall j :: 0 <= j < |paragraphs| ==> |Strip(paragraphs[j])| <= ChunkSize
  }

  /** Only pieces, no forced flush. */
  predicate NoFlush(steps: seq<Step>) { forall i :: 0 <= i < |steps| ==> steps[i].Add? }

  /** The pieces added, in order. */
  function Pieces(steps: seq<Step>): (r: seq<string>)
    ensures |r| <= |steps|
    decreases |steps|
  {
    if |steps| == 0 then []
    else
      var init := Pieces(steps[..|steps| - 1]);
      match steps[|steps| - 1]
      case Flush => init
      case Add(x) => init + [x]
  }

  lemma {:induction false} PiecesNonEmpty(steps: seq<Step>)
    requires forall i :: 0 <= i < |steps| ==> steps[i].Add? ==> steps[i].piece != ""
    ensures forall i :: 0 <= i < |Pieces(steps)| ==> Pieces(steps)[i] != ""
    decreases |steps|
  {
    if |steps| > 0 {
      PiecesNonEmpty(steps[..|steps| - 1]);
    }
  }

  /** The loop state: the finished chunks (as groups of pieces), the pieces
      of the chunk being built and `current_length`. */
  datatype Packer = Packer(done: seq<seq<string>>, current: seq<string>, length: int)

  /** Emit the chunk being built, if any. */
  function Emit(p: Packer): Packer {
    if p.current != [] then Packer(p.done + [p.current], [], 0) else p
  }

  /** One step of the loop: a flush, or a piece that first emits the chunk
      being built when it would push it past the chunk size. */
  function Feed(p: Packer, s: Step): Packer {
    match s
    case Flush => Emit(p)
    case Add(x) =>
      if p.length + |x| > ChunkSize && p.current != [] then Packer(p.done + [p.current], [x], |x| + 1)
      else Packer(p.done, p.current + [x], p.length + |x| + 1)
  }

  /** Every chunk so far, including the one being built. */
  function Groups(p: Packer): seq<seq<string>> {
    p.done + (if p.current == [] then [] else [p.current])
  }

  /** A group of two or more pieces fits the chunk size. */
  predicate Fits(g: seq<string>) { |g| >= 2 ==> |Join(" ", g)| <= ChunkSize }

  /** The loop after the given steps: its chunks hold exactly the pieces in
      order, none is empty, every group of two or more pieces fits, and
      `current_length` is one more than the length of the chunk being built. */
  function Pack(steps: seq<Step>): (r: Packer)
    ensures Flatten(Groups(r)) == Pieces(steps)
    ensures PackerOk(r)
    decreases |steps|
  {
    if |steps| == 0 then Packer([], [], 0)
    else
      var p := Pack(steps[..|steps| - 1]);
      var r := Feed(p, steps[|steps| - 1]);
      FeedFacts(p, steps[|steps| - 1]);
      r
  }

  /** What the loop keeps true, step after step. */
  predicate PackerOk(p: Packer) {
    NonEmptyGroups(p.done) && (forall i :: 0 <= i < |p.done| ==> Fits(p.done[i])) && Fits(p.current)
    && p.length == if p.current == [] then 0 else |Join(" ", p.current)| + 1
  }

  lemma FeedFacts(p: Packer, s: Step)
    requires PackerOk(p)
    ensures PackerOk(Feed(p, s))
    ensures Flatten(Groups(Feed(p, s))) == Flatten(Groups(p)) + (if s.Add? then [s.piece] else [])
  {
    match s
    case Flush =>
      FeedFlush(p);
    case Add(x) =>
      if p.length + |x| > ChunkSize && p.current != [] {
        assert Feed(p, s) == Packer(p.done + [p.current], [x], |x| + 1);
        FeedStarts(p, x);
      } else if p.current != [] {
        assert Feed(p, s) == Packer(p.done, p.current + [x], p.length + |x| + 1);
        FeedExtends(p, x);
      } else {
        assert Feed(p, s) == Packer(p.done, p.current + [x], p.length + |x| + 1);
        assert p.current + [x] == [x];
        FeedFirst(p, x);
      }
  }

  /** A flush emits the chunk being built, if any. */
  lemma FeedFlush(p: Packer)
    requires PackerOk(p)
    ensures PackerOk(Emit(p)) && Groups(Emit(p)) == Groups(p)
  {
    if p.current != [] {
      assert Groups(Emit(p)) == p.done + [p.current];
    }
  }

  /** A piece that does not fit starts a new chunk. */
  lemma FeedStarts(p: Packer, x: string)
    requires PackerOk(p) && p.current != []
    ensures var r := Packer(p.done + [p.current], [x], |x| + 1);
            PackerOk(r) && Flatten(Groups(r)) == Flatten(Groups(p)) + [x]
  {
    var r := Packer(p.done + [p.current], [x], |x| + 1);
    FlattenSnoc(p.done, p.current);
    FlattenSnoc(p.done + [p.current], [x]);
    assert Groups(r) == (p.done + [p.current]) + [[x]];
    assert Join(" ", [x]) == x;
  }

  /** A piece that fits joins the chunk being built. */
  lemma FeedExtends(p: Packer, x: string)
    requires PackerOk(p) && p.current != [] && p.length + |x| <= ChunkSize
    ensures var r := Packer(p.done, p.current + [x], p.length + |x| + 1);
            PackerOk(r) && Flatten(Groups(r)) == Flatten(Groups(p)) + [x]
  {
    JoinLength(" ", p.current, x);
    FlattenSnoc(p.done, p.current);
    FlattenSnoc(p.done, p.current + [x]);
  }

  /** The first piece of a chunk. */
  lemma FeedFirst(p: Packer, x: string)
    requires PackerOk(p) && p.current == []
    ensures var r := Packer(p.done, [x], p.length + |x| + 1);
            PackerOk(r) && Flatten(Groups(r)) == Flatten(Groups(p)) + [x]
  {
    FlattenSnoc(p.done, [x]);
    assert Groups(p) == p.done;
    assert Join(" ", [x]) == x;
  }

  /** The groups `_chunk_text_with_structure` emits for its paragraphs. */
  function TextGroups(paragraphs: seq<string>, splitSentences: string -> seq<string>): seq<seq<string>> {
    Groups(Pack(TextSteps(paragraphs, splitSentences)))
  }

  lemma FinalGroupsFacts(steps: seq<Step>)
    ensures var gs := Groups(Pack(steps));
            NonEmptyGroups(gs) && (forall i :: 0 <= i < |gs| ==> Fits(gs[i]))
            && Flatten(gs) == Pieces(steps)
  {
  }

  /** Each group after the first could not have taken the first piece of
      the next one without passing the chunk size: the test of line 347
      and line 367, with `current_length` one more than the group's text. */
  predicate Greedy(gs: seq<seq<string>>) {
    forall i :: 0 < i < |gs| ==> |gs[i]| > 0 ==> |Join(" ", gs[i - 1])| + 1 + |gs[i][0]| > ChunkSize
  }

  /** Without forced flushes the loop packs greedily: a chunk is emitted
      only when the next piece does not fit. */
  lemma {:induction false} PackGreedy(steps: seq<Step>)
    ensures NoFlush(steps) ==>
              Greedy(Groups(Pack(steps))) && (Pack(steps).current == [] ==> Pack(steps).done == [])
    decreases |steps|
  {
    if |steps| > 0 && NoFlush(steps) {
      var init := steps[..|steps| - 1];
      assert NoFlush(init) by {
        assert forall i :: 0 <= i < |init| ==> init[i] == steps[i];
      }
      PackGreedy(init);
      var p := Pack(init);
      var x := steps[|steps| - 1].piece;
      assert Pack(steps) == Feed(p, Add(x));
      if p.length + |x| > ChunkSize && p.current != [] {
        GreedySnoc(p.done + [p.current], [x]);
      } else if p.current != [] {
        GreedyReplaceLast(p.done, p.current, p.current + [x]);
      } else {
        assert p.done == [];
        assert Feed(p, Add(x)) == Packer([], [x], p.length + |x| + 1);
        assert Groups(Pack(steps)) == [[x]];
      }
    }
  }

  lemma GreedySnoc(gs: seq<seq<string>>, g: seq<string>)
    requires Greedy(gs) && |gs| > 0 && |g| > 0
    requires |Join(" ", gs[|gs| - 1])| + 1 + |g[0]| > ChunkSize
    ensures Greedy(gs + [g])
  {
    forall i | 0 < i < |gs + [g]| && |(gs + [g])[i]| > 0
      ensures |Join(" ", (gs + [g])[i - 1])| + 1 + |(gs + [g])[i][0]| > ChunkSize
    {
      if i < |gs| {
        assert (gs + [g])[i] == gs[i] && (gs + [g])[i - 1] == gs[i - 1];
      }
    }
  }

  lemma GreedyReplaceLast(done: seq<seq<string>>, g: seq<string>, g': seq<string>)
    requires Greedy(done + [g]) && |g| > 0 && |g'| > 0 && g'[0] == g[0]
    ensures Greedy(done + [g'])
  {
    forall i | 0 < i < |done + [g']| && |(done + [g'])[i]| > 0
      ensures |Join(" ", (done + [g'])[i - 1])| + 1 + |(done + [g'])[i][0]| > ChunkSize
    {
      assert (done + [g'])[i - 1] == (done + [g])[i - 1];
      if i < |done| {
        assert (done + [g'])[i] == (done + [g])[i];
      } else {
        assert (done + [g'])[i] == g' && (done + [g])[i] == g;
      }
    }
  }

  /** `_chunk_text_with_structure`: paragraph chunks numbered 0, 1, 2, ...
      Each chunk is a run of whole pieces (stripped paragraphs, or the
      stripped sentences of an oversized one) joined by spaces, and the
      runs, in order, are exactly the pieces: no piece is cut or dropped.
      No content is empty, and a content longer than the chunk size is a
      single piece. When no paragraph needs splitting, a chunk ends only
      where the next piece would not fit. */
  function ChunkText(paragraphs: seq<string>, splitSentences: string -> seq<string>, page: Option<int>): (r: seq<NewChunk>)
    ensures forall i :: 0 <= i < |r| ==> r[i].sequenceIndex == Some(i)
    ensures forall i :: 0 <= i < |r| ==> r[i].chunkType == Paragraph && r[i].pageNumber == page
                                         && r[i].confidenceWeight == DefaultWeight
    ensures forall i :: 0 <= i < |r| ==> r[i].content != ""
    ensures forall i :: 0 <= i < |r| ==>
              |r[i].content| <= ChunkSize || r[i].content in Pieces(TextSteps(paragraphs, splitSentences))
    ensures Join(" ", Contents(r)) == Join(" ", Pieces(TextSteps(paragraphs, splitSentences)))
    ensures r == [] <==> Pieces(TextSteps(paragraphs, splitSentences)) == []
    ensures var gs := TextGroups(paragraphs, splitSentences);
            && |gs| == |r| && NonEmptyGroups(gs)
            && Flatten(gs) == Pieces(TextSteps(paragraphs, splitSentences))
            && (forall i :: 0 <= i < |r| ==> r[i].content == Join(" ", gs[i]))
            && (ShortParagraphs(paragraphs) ==> Greedy(gs))
  {
    var steps := TextSteps(paragraphs, splitSentences);
    var gs := Groups(Pack(steps));
    var r := ParagraphChunks(gs, page);
    FinalGroupsFacts(steps);
    PiecesNonEmpty(steps);
    ChunkTextFacts(gs, r);
    TextGroupsGreedy(paragraphs, splitSentences);
    r
  }

  lemma TextGroupsGreedy(paragraphs: seq<string>, splitSentences: string -> seq<string>)
    ensures ShortParagraphs(paragraphs) ==> Greedy(TextGroups(paragraphs, splitSentences))
  {
    PackGreedy(TextSteps(paragraphs, splitSentences));
  }

  /** One paragraph chunk per group, numbered from 0. */
  function ParagraphChunks(gs: seq<seq<string>>, page: Option<int>): (r: seq<NewChunk>)
    ensures |r| == |gs|
    ensures forall i :: 0 <= i < |r| ==> r[i] == NewChunk(Join(" ", gs[i]), Paragraph, page, None, None, Some(i), DefaultWeight)
  {
    seq(|gs|, i requires 0 <= i < |gs| => NewChunk(Join(" ", gs[i]), Paragraph, page, None, None, Some(i), DefaultWeight))
  }


  function Contents(cs: seq<NewChunk>): (r: seq<string>)
    ensures |r| == |cs|
    ensures forall i :: 0 <= i < |cs| ==> r[i] == cs[i].content
  {
    seq(|cs|, i requires 0 <= i < |cs| => cs[i].content)
  }

  lemma {:induction false} GroupMembers(gs: seq<seq<string>>, i: nat, j: nat)
    requires i < |gs| && j < |gs[i]|
    ensures gs[i][j] in Flatten(gs)
    decreases |gs|
  {
    FlattenSnoc(gs[..|gs| - 1], gs[|gs| - 1]);
    assert gs == gs[..|gs| - 1] + [gs[|gs| - 1]];
    if i < |gs| - 1 {
      GroupMembers(gs[..|gs| - 1], i, j);
    }
  }

  /** The content of one group: never empty, and either within the chunk
      size or a single piece. */
  lemma GroupContent(gs: seq<seq<string>>, i: nat)
    requires NonEmptyGroups(gs) && (forall k :: 0 <= k < |gs| ==> Fits(gs[k]))
    requires forall k :: 0 <= k < |Flatten(gs)| ==> Flatten(gs)[k] != ""
    requires i < |gs|
    ensures Join(" ", gs[i]) != ""
    ensures |Join(" ", gs[i])| <= ChunkSize || Join(" ", gs[i]) in Flatten(gs)
  {
    GroupMembers(gs, i, 0);
    JoinNonEmpty(" ", gs[i]);
    if |gs[i]| == 1 {
      assert Join(" ", gs[i]) == gs[i][0];
    }
  }

  lemma ChunkTextFacts(gs: seq<seq<string>>, r: seq<NewChunk>)
    requires NonEmptyGroups(gs) && (forall k :: 0 <= k < |gs| ==> Fits(gs[k]))
    requires forall k :: 0 <= k < |Flatten(gs)| ==> Flatten(gs)[k] != ""
    requires |r| == |gs| && forall i :: 0 <= i < |r| ==> r[i].content == Join(" ", gs[i])
    ensures forall i :: 0 <= i < |r| ==> r[i].content != ""
    ensures forall i :: 0 <= i < |r| ==> |r[i].content| <= ChunkSize || r[i].content in Flatten(gs)
    ensures Join(" ", Contents(r)) == Join(" ", Flatten(gs))
    ensures r == [] <==> Flatten(gs) == []
  {
    forall i | 0 <= i < |r|
      ensures r[i].content != ""
      ensures |r[i].content| <= ChunkSize || r[i].content in Flatten(gs)
    {
      GroupContent(gs, i);
    }
    assert Contents(r) == JoinEach(" ", gs);
    JoinFlatten(" ", gs);
    if r != [] {
      FlattenLast(gs);
    }
  }

  /** Text whose paragraphs are all blank gives no chunks. */
  lemma {:induction false} BlankTextNoChunks(paragraphs: seq<string>, splitSentences: string -> seq<string>, page: Option<int>)
    requires forall i :: 0 <= i < |paragraphs| ==> AllSpace(paragraphs[i])
    ensures ChunkText(paragraphs, splitSentences, page) == []
  {
    BlankSteps(paragraphs, splitSentences);
  }

  lemma {:induction false} BlankSteps(paragraphs: seq<string>, splitSentences: string -> seq<string>)
    requires forall i :: 0 <= i < |paragraphs| ==> AllSpace(paragraphs[i])
    ensures TextSteps(paragraphs, splitSentences) == []
    decreases |paragraphs|
  {
    if |paragraphs| > 0 {
      BlankSteps(paragraphs[1..], splitSentences);
    }
  }

  /** Short paragraphs are never split: each is one piece. */
  lemma {:induction false} ShortParagraphsArePieces(paragraphs: seq<string>, splitSentences: string -> seq<string>)
    requires forall i :: 0 <= i < |paragraphs| ==> !AllSpace(paragraphs[i]) && |Strip(paragraphs[i])| <= ChunkSize
    ensures |TextSteps(paragraphs, splitSentences)| == |paragraphs|
    ensures forall i :: 0 <= i < |paragraphs| ==> TextSteps(paragraphs, splitSentences)[i] == Add(Strip(paragraphs[i]))
    decreases |paragraphs|
  {
    if |paragraphs| > 0 {
      ShortParagraphsArePieces(paragraphs[1..], splitSentences);
    }
  }

  // ---------------------------------------------------------------------------
  // _merge_small_chunks

  /** The `min_size` every caller passes. */
  const MinChunkSize: int := 100

  /** A chunk that goes into the buffer: short and not a heading. */
  predicate Small(c: NewChunk, minSize: int) { |c.content| < minSize && c.chunkType != Heading }

  /** A chunk that may stand alone in the output. */
  predicate Large(c: NewChunk, minSize: int) { c.chunkType == Heading || |c.content| >= minSize }

  function AppendText(c: NewChunk, x: string): NewChunk { c.(content := c.content + " " + x) }

  function PrependText(x: string, c: NewChunk): NewChunk { c.(content := x + " " + c.content) }

  /** The loop state: chunks emitted so far and the buffer of small ones. */
  datatype Merger = Merger(merged: seq<NewChunk>, buffer: Option<NewChunk>)

  /** The contents not yet lost to merging, in order: the emitted chunks,
      then the buffer. */
  function Pending(m: Merger): seq<string> {
    Contents(m.merged) + (if m.buffer.Some? then [m.buffer.value.content] else [])
  }

  function CountHeadings(cs: seq<NewChunk>): nat
    decreases |cs|
  {
    if |cs| == 0 then 0
    else CountHeadings(cs[..|cs| - 1]) + (if cs[|cs| - 1].chunkType == Heading then 1 else 0)
  }

  /** The number of chunks that may stand alone. */
  function CountLarge(cs: seq<NewChunk>, minSize: int): (n: nat)
    ensures n <= |cs|
    decreases |cs|
  {
    if |cs| == 0 then 0
    else CountLarge(cs[..|cs| - 1], minSize) + (if Large(cs[|cs| - 1], minSize) then 1 else 0)
  }

  lemma CountLargeSnoc(cs: seq<NewChunk>, c: NewChunk, minSize: int)
    ensures CountLarge(cs + [c], minSize) == CountLarge(cs, minSize) + (if Large(c, minSize) then 1 else 0)
  {
    assert (cs + [c])[..|cs|] == cs;
  }

  lemma CountHeadingsSnoc(cs: seq<NewChunk>, c: NewChunk)
    ensures CountHeadings(cs + [c]) == CountHeadings(cs) + (if c.chunkType == Heading then 1 else 0)
  {
    assert (cs + [c])[..|cs|] == cs;
  }

  lemma ContentsSnoc(cs: seq<NewChunk>, c: NewChunk)
    ensures Contents(cs + [c]) == Contents(cs) + [c.content]
  {
  }

  /** Merging the last two parts of a join is invisible in the joined string. */
  lemma JoinMergeLast(sep: string, s: seq<string>, b: string, x: string)
    ensures Join(sep, s + [b + sep + x]) == Join(sep, s + [b, x])
  {
    if |s| == 0 {
      assert [b, x][1..] == [x];
    } else {
      JoinConcat(sep, s, [b + sep + x]);
      JoinConcat(sep, s, [b, x]);
      assert [b, x][1..] == [x];
    }
  }

  /** One turn of the loop: a small chunk joins the buffer; any other chunk
      takes a still-small buffer in front of it, or follows a buffer that
      has grown large enough to stand alone. */
  function MergeStep(m: Merger, c: NewChunk, minSize: int): Merger {
    if Small(c, minSize) then
      match m.buffer
      case Some(b) => Merger(m.merged, Some(AppendText(b, c.content)))
      case None => Merger(m.merged, Some(c))
    else
      match m.buffer
      case None => Merger(m.merged + [c], None)
      case Some(b) =>
        if |b.content| < minSize then Merger(m.merged + [PrependText(b.content, c)], None)
        else Merger(m.merged + [b, c], None)
  }

  /** What the loop keeps true. */
  predicate MergerOk(m: Merger, minSize: int) {
    (forall i :: 0 <= i < |m.merged| ==> Large(m.merged[i], minSize))
    && (m.buffer.Some? ==> m.buffer.value.chunkType != Heading)
  }

  /** What one turn of the loop does to the pending contents and the
      emitted headings. */
  predicate StepOk(m: Merger, m': Merger, c: NewChunk, minSize: int) {
    MergerOk(m', minSize)
    && Join(" ", Pending(m')) == Join(" ", Pending(m) + [c.content])
    && |Pending(m')| <= |Pending(m)| + 1 && Pending(m') != []
    && CountHeadings(m'.merged) == CountHeadings(m.merged) + (if c.chunkType == Heading then 1 else 0)
    && |m'.merged| >= |m.merged| + (if Large(c, minSize) then 1 else 0)
  }

  lemma MergeStepFacts(m: Merger, c: NewChunk, minSize: int)
    requires MergerOk(m, minSize)
    ensures StepOk(m, MergeStep(m, c, minSize), c, minSize)
  {
    if Small(c, minSize) {
      if m.buffer.Some? {
        BufferGrows(m.merged, m.buffer.value, c.content);
      } else {
        assert Pending(m) == Contents(m.merged);
      }
    } else if m.buffer.None? {
      StepAlone(m, c, minSize);
    } else if |m.buffer.value.content| < minSize {
      StepAfterSmallBuffer(m, c, minSize);
    } else {
      StepAfterLargeBuffer(m, c, minSize);
    }
  }

  lemma StepAlone(m: Merger, c: NewChunk, minSize: int)
    requires MergerOk(m, minSize) && m.buffer.None? && Large(c, minSize)
    ensures StepOk(m, Merger(m.merged + [c], None), c, minSize)
  {
    ContentsSnoc(m.merged, c);
    CountHeadingsSnoc(m.merged, c);
    assert Pending(m) == Contents(m.merged);
    assert Pending(Merger(m.merged + [c], None)) == Contents(m.merged + [c]);
  }

  lemma StepAfterSmallBuffer(m: Merger, c: NewChunk, minSize: int)
    requires MergerOk(m, minSize) && m.buffer.Some? && Large(c, minSize)
    ensures StepOk(m, Merger(m.merged + [PrependText(m.buffer.value.content, c)], None), c, minSize)
  {
    var b := m.buffer.value;
    var c' := PrependText(b.content, c);
    ContentsSnoc(m.merged, c');
    CountHeadingsSnoc(m.merged, c');
    BufferGrows(m.merged, b, c.content);
    assert Pending(Merger(m.merged + [c'], None)) == Contents(m.merged) + [b.content + " " + c.content];
  }

  lemma StepAfterLargeBuffer(m: Merger, c: NewChunk, minSize: int)
    requires MergerOk(m, minSize) && m.buffer.Some? && |m.buffer.value.content| >= minSize && Large(c, minSize)
    ensures StepOk(m, Merger(m.merged + [m.buffer.value, c], None), c, minSize)
  {
    var b := m.buffer.value;
    ContentsSnoc(m.merged, b);
    ContentsSnoc(m.merged + [b], c);
    CountHeadingsSnoc(m.merged, b);
    CountHeadingsSnoc(m.merged + [b], c);
    assert m.merged + [b, c] == (m.merged + [b]) + [c];
    assert Pending(Merger(m.merged + [b, c], None)) == Pending(m) + [c.content];
  }

  /** A buffer that takes in the next text. */
  lemma BufferGrows(merged: seq<NewChunk>, b: NewChunk, x: string)
    ensures Join(" ", Contents(merged) + [b.content + " " + x]) == Join(" ", Pending(Merger(merged, Some(b))) + [x])
  {
    JoinMergeLast(" ", Contents(merged), b.content, x);
    assert Pending(Merger(merged, Some(b))) + [x] == Contents(merged) + [b.content, x];
  }

  /** What the loop state after the chunks `cs` satisfies: the pending
      contents join to the joined input, there is at most one per input
      chunk, and every heading has been emitted. */
  predicate MergeInv(m: Merger, cs: seq<NewChunk>, minSize: int) {
    MergerOk(m, minSize)
    && Join(" ", Pending(m)) == Join(" ", Contents(cs))
    && |Pending(m)| <= |cs| && (Pending(m) == [] <==> cs == [])
    && CountHeadings(m.merged) == CountHeadings(cs)
    && |m.merged| >= CountLarge(cs, minSize)
  }

  /** One more chunk through the loop keeps the invariant. */
  lemma MergeStateStep(cs: seq<NewChunk>, m: Merger, minSize: int)
    requires |cs| > 0 && MergeInv(m, cs[..|cs| - 1], minSize)
    ensures MergeInv(MergeStep(m, cs[|cs| - 1], minSize), cs, minSize)
  {
    var init := cs[..|cs| - 1];
    var c := cs[|cs| - 1];
    ButLast(cs);
    MergeStepFacts(m, c, minSize);
    InvStep(init, c, m, MergeStep(m, c, minSize), minSize);
  }

  /** A step that does what `StepOk` says keeps the invariant. */
  lemma InvStep(init: seq<NewChunk>, c: NewChunk, m: Merger, m': Merger, minSize: int)
    requires MergeInv(m, init, minSize) && StepOk(m, m', c, minSize)
    ensures MergeInv(m', init + [c], minSize)
  {
    ContentsSnoc(init, c);
    CountHeadingsSnoc(init, c);
    CountLargeSnoc(init, c, minSize);
    if init != [] {
      JoinSnoc(" ", Pending(m), c.content);
      JoinSnoc(" ", Contents(init), c.content);
    } else {
      assert Pending(m) + [c.content] == Contents(init + [c]);
    }
  }

  /** The loop after the given chunks. */
  function MergeState(cs: seq<NewChunk>, minSize: int): (m: Merger)
    ensures MergeInv(m, cs, minSize)
    decreases |cs|
  {
    if |cs| == 0 then Merger([], None)
    else
      var m := MergeState(cs[..|cs| - 1], minSize);
      MergeStateStep(cs, m, minSize);
      MergeStep(m, cs[|cs| - 1], minSize)
  }

  /** After the loop: a leftover buffer is added to the last emitted chunk,
      or becomes the only chunk. */
  function MergeFinish(m: Merger): (r: seq<NewChunk>) {
    match m.buffer
    case None => m.merged
    case Some(b) =>
      if |m.merged| > 0 then m.merged[..|m.merged| - 1] + [AppendText(m.merged[|m.merged| - 1], b.content)]
      else [b]
  }

  lemma MergeFinishFacts(m: Merger, minSize: int)
    requires MergerOk(m, minSize)
    ensures var r := MergeFinish(m);
            Join(" ", Contents(r)) == Join(" ", Pending(m))
            && |r| <= |Pending(m)|
            && (forall i :: 0 <= i < |r| ==> Large(r[i], minSize) || |r| == 1)
            && CountHeadings(r) == CountHeadings(m.merged)
            && |r| >= |m.merged|
  {
    if m.buffer.Some? && |m.merged| > 0 {
      var init := m.merged[..|m.merged| - 1];
      var last := m.merged[|m.merged| - 1];
      var b := m.buffer.value;
      assert m.merged == init + [last];
      ContentsSnoc(init, last);
      ContentsSnoc(init, AppendText(last, b.content));
      CountHeadingsSnoc(init, last);
      CountHeadingsSnoc(init, AppendText(last, b.content));
      JoinMergeLast(" ", Contents(init), last.content, b.content);
      assert Pending(m) == Contents(init) + [last.content, b.content];
      var r := MergeFinish(m);
      forall i | 0 <= i < |r| ensures Large(r[i], minSize) {
        if i < |init| {
          assert r[i] == m.merged[i];
        }
      }
    } else if m.buffer.Some? {
      var b := m.buffer.value;
      assert Pending(m) == [b.content];
      assert Contents([b]) == [b.content];
    } else {
      assert Pending(m) == Contents(m.merged);
    }
  }

  /** `_merge_small_chunks`: short lists come back as they are; otherwise
      no more chunks than given, the same text when contents are joined
      by spaces, every heading kept, and each non-heading chunk at least
      `min_size` long unless it is the only one. Only small chunks are
      merged away: there are at least as many chunks as given chunks that
      are headings or `min_size` long. */
  function MergeSmallChunks(cs: seq<NewChunk>, minSize: int): (r: seq<NewChunk>)
    ensures |cs| < 2 ==> r == cs
    ensures |r| <= |cs|
    ensures |r| >= CountLarge(cs, minSize)
    ensures Join(" ", Contents(r)) == Join(" ", Contents(cs))
    ensures forall i :: 0 <= i < |r| ==> Large(r[i], minSize) || |r| == 1
    ensures CountHeadings(r) == CountHeadings(cs)
  {
    if |cs| < 2 then cs
    else
      var m := MergeState(cs, minSize);
      MergeFinishFacts(m, minSize);
      MergeFinish(m)
  }

  /** Chunks that are all long enough, or headings, pass through unchanged. */
  lemma {:induction false} MergeKeepsLargeChunks(cs: seq<NewChunk>, minSize: int)
    requires forall i :: 0 <= i < |cs| ==> !Small(cs[i], minSize)
    ensures MergeState(cs, minSize) == Merger(cs, None)
    decreases |cs|
  {
    if |cs| > 0 {
      var init := cs[..|cs| - 1];
      var c := cs[|cs| - 1];
      MergeKeepsLargeChunks(init, minSize);
      MergeStateSnoc(cs, minSize);
      MergeStepLarge(init, c, minSize);
      ButLast(cs);
    }
  }

  lemma MergeStateSnoc(cs: seq<NewChunk>, minSize: int)
    requires |cs| > 0
    ensures MergeState(cs, minSize) == MergeStep(MergeState(cs[..|cs| - 1], minSize), cs[|cs| - 1], minSize)
  {
  }

  lemma MergeStepLarge(done: seq<NewChunk>, c: NewChunk, minSize: int)
    requires !Small(c, minSize)
    ensures MergeStep(Merger(done, None), c, minSize) == Merger(done + [c], None)
  {
  }

  // ---------------------------------------------------------------------------
  // _process_markdown

  /** Length of the run of '#' at the start of `s`. */
  function HashRun(s: string): (n: nat)
    ensures n <= |s|
    ensures forall i :: 0 <= i < n ==> s[i] == '#'
    ensures n == |s| || s[n] != '#'
    decreases |s|
  {
    if |s| > 0 && s[0] == '#' then
      var n := 1 + HashRun(s[1..]);
      assert forall i :: 1 <= i < n ==> s[i] == s[1..][i - 1];
      n
    else 0
  }

  /** One way for `^(#{1,6})\s+(.+)$` to match `line`: `k` hashes, then `w`
      whitespace characters, then a non-empty rest without a line break. */
  predicate Decomposes(line: string, k: nat, w: nat) {
    1 <= k <= 6 && w >= 1 && k + w < |line|
    && (forall i :: 0 <= i < k ==> line[i] == '#')
    && (forall i :: k <= i < k + w ==> IsSpace(line[i]))
    && (forall i :: k + w <= i < |line| ==> line[i] != '\n')
  }

  /** The Markdown header regex on a stripped line: the level and the
      heading text, if it matches. */
  function HeaderMatch(line: string): (r: Option<(nat, string)>)
    requires IsStripped(line)
  {
    var k := HashRun(line);
    if 1 <= k <= 6 && k < |line| && IsSpace(line[k]) then
      var w := SpaceRun(line[k..]);
      if k + w < |line| && '\n' !in line[k + w..] then Some((k, line[k + w..])) else None
    else None
  }

  /** The regex matches exactly when the line decomposes; the level is the
      number of hashes and the text is what follows the whole run of
      whitespace after them (the greedy choice), so it starts with a
      non-space character. */
  lemma HeaderMatchIff(line: string)
    requires IsStripped(line)
    ensures HeaderMatch(line).Some? <==> exists k, w :: Decomposes(line, k, w)
    ensures HeaderMatch(line).Some? ==>
              var (k, t) := HeaderMatch(line).value;
              (exists w :: Decomposes(line, k, w) && t == line[k + w..]) && !IsSpace(t[0])
  {
    var k := HashRun(line);
    if HeaderMatch(line).Some? {
      var rest := line[k..];
      var w := SpaceRun(rest);
      forall i | k <= i < k + w ensures IsSpace(line[i]) {
        assert line[i] == rest[i - k];
      }
      forall i | k + w <= i < |line| ensures line[i] != '\n' {
        assert line[i] == line[k + w..][i - k - w];
      }
      assert Decomposes(line, k, w);
      assert line[k..][w] == line[k + w..][0];
    } else {
      forall k', w' | Decomposes(line, k', w') ensures false {
        DecomposesAtRun(line, k', w');
      }
    }
  }

  lemma DecomposesAtRun(line: string, k: nat, w: nat)
    requires IsStripped(line) && Decomposes(line, k, w)
    ensures HeaderMatch(line).Some?
  {
    assert IsSpace(line[k]);
    assert HashRun(line) == k;
    var rest := line[k..];
    var w' := SpaceRun(rest);
    assert w' >= w;
    assert k + w' < |line|;
    var text := line[k + w'..];
    forall i | 0 <= i < |text| ensures text[i] != '\n' {
      assert text[i] == line[k + w' + i];
    }
  }

  /** One line of a Markdown file: nothing for a blank line, a heading
      (level, weight 1.2, and its own text as section) for a header line,
      otherwise a paragraph of the stripped line in the current section. */
  function MarkdownLine(line: string, section: Option<string>): (r: Option<NewChunk>)
    ensures r.None? <==> AllSpace(line)
    ensures r.Some? && HeaderMatch(Strip(line)).Some? ==>
              var (k, t) := HeaderMatch(Strip(line)).value;
              r.value == NewChunk(t, Heading, None, Some(k), Some(t), None, HeadingWeight)
    ensures r.Some? && HeaderMatch(Strip(line)).None? ==>
              r.value == NewChunk(Strip(line), Paragraph, None, None, section, None, DefaultWeight)
  {
    var l := Strip(line);
    if l == "" then None
    else
      match HeaderMatch(l)
      case Some((k, t)) => Some(NewChunk(t, Heading, None, Some(k), Some(t), None, HeadingWeight))
      case None => Some(NewChunk(l, Paragraph, None, None, section, None, DefaultWeight))
  }

  /** The heading text of a header line, if the line is one. */
  function HeaderText(line: string): Option<string> {
    var l := Strip(line);
    match HeaderMatch(l)
    case Some((_, t)) => Some(t)
    case None => None
  }

  /** The last value `f` gives for an element of `xs`, if any. */
  function LastSome<T, U>(xs: seq<T>, f: T -> Option<U>): (r: Option<U>)
    decreases |xs|
  {
    if |xs| == 0 then None
    else if f(xs[|xs| - 1]).Some? then f(xs[|xs| - 1])
    else LastSome(xs[..|xs| - 1], f)
  }

  lemma {:induction false} LastSomeIsLast<T, U>(xs: seq<T>, f: T -> Option<U>)
    ensures LastSome(xs, f).None? <==> forall i :: 0 <= i < |xs| ==> f(xs[i]).None?
    ensures LastSome(xs, f).Some? ==>
              exists i :: 0 <= i < |xs| && f(xs[i]) == LastSome(xs, f)
                          && forall j :: i < j < |xs| ==> f(xs[j]).None?
    decreases |xs|
  {
    if |xs| > 0 {
      var init := xs[..|xs| - 1];
      LastSomeIsLast(init, f);
      if f(xs[|xs| - 1]).None? {
        assert forall i :: 0 <= i < |init| ==> init[i] == xs[i];
        if LastSome(xs, f).Some? {
          var i :| 0 <= i < |init| && f(init[i]) == LastSome(init, f)
                   && forall j :: i < j < |init| ==> f(init[j]).None?;
          assert f(xs[i]) == LastSome(xs, f);
        }
      }
    }
  }

  /** `current_section` after the given lines: the text of the last header
      line, if any. */
  function SectionAfter(lines: seq<string>): Option<string> {
    LastSome(lines, HeaderText)
  }

  /** The current section is the text of the last header line before the
      point, and there is none when no header line came before. */
  lemma SectionIsLastHeader(lines: seq<string>)
    ensures SectionAfter(lines).None? <==> forall i :: 0 <= i < |lines| ==> HeaderText(lines[i]).None?
    ensures SectionAfter(lines).Some? ==>
              exists i :: 0 <= i < |lines| && HeaderText(lines[i]) == SectionAfter(lines)
                          && forall j :: i < j < |lines| ==> HeaderText(lines[j]).None?
  {
    LastSomeIsLast(lines, HeaderText);
  }

  /** The chunks of the Markdown lines before merging, one per non-blank
      line, each paragraph in the section of the last header line above it. */
  function MarkdownChunks(lines: seq<string>): (r: seq<NewChunk>)
    ensures |r| <= |lines|
    decreases |lines|
  {
    if |lines| == 0 then []
    else
      var init := lines[..|lines| - 1];
      match MarkdownLine(lines[|lines| - 1], SectionAfter(init))
      case Some(c) => MarkdownChunks(init) + [c]
      case None => MarkdownChunks(init)
  }

  /** Lines that are all blank give no chunks; a file of non-blank lines
      gives one chunk per line. */
  lemma {:induction false} MarkdownChunkCount(lines: seq<string>)
    ensures (forall i :: 0 <= i < |lines| ==> !AllSpace(lines[i])) ==> |MarkdownChunks(lines)| == |lines|
    ensures (forall i :: 0 <= i < |lines| ==> AllSpace(lines[i])) ==> MarkdownChunks(lines) == []
    decreases |lines|
  {
    if |lines| > 0 {
      var init := lines[..|lines| - 1];
      MarkdownChunkCount(init);
      MarkdownChunksSnoc(lines);
      assert forall i :: 0 <= i < |init| ==> init[i] == lines[i];
    }
  }

  /** The last line adds one chunk, unless it is blank. */
  lemma MarkdownChunksSnoc(lines: seq<string>)
    requires |lines| > 0
    ensures var before := MarkdownChunks(lines[..|lines| - 1]);
            if AllSpace(lines[|lines| - 1]) then MarkdownChunks(lines) == before
            else |MarkdownChunks(lines)| == |before| + 1
  {
    var init := lines[..|lines| - 1];
    var r := MarkdownLine(lines[|lines| - 1], SectionAfter(init));
    assert r.None? <==> AllSpace(lines[|lines| - 1]);
  }

  /** `_process_markdown`: the lines of the file made into chunks, then
      small chunks merged. */
  function ProcessMarkdown(content: string): (r: seq<NewChunk>)
    ensures Join(" ", Contents(r)) == Join(" ", Contents(MarkdownChunks(Split(content, '\n'))))
    ensures CountHeadings(r) == CountHeadings(MarkdownChunks(Split(content, '\n')))
    ensures forall i :: 0 <= i < |r| ==> Large(r[i], MinChunkSize) || |r| == 1
    ensures |r| >= CountLarge(MarkdownChunks(Split(content, '\n')), MinChunkSize)
  {
    MergeSmallChunks(MarkdownChunks(Split(content, '\n')), MinChunkSize)
  }
}
