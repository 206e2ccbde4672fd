/** Stored chunks and documents, the structural chunk types, and the
    citation string a chunk is quoted with. */
module ChunkModel {
  import opened Wrappers
  import opened Text

  /** Structural type of a chunk, with its stored string value. */
  datatype ChunkType = Paragraph | Heading | ListItem | TableCell | CodeBlock | Caption | Footnote | Quote {

    function Value(): string {
      match this
      case Paragraph => "paragraph"
      case Heading => "heading"
      case ListItem => "list_item"
      case TableCell => "table_cell"
      case CodeBlock => "code"
      case Caption => "caption"
      case Footnote => "footnote"
      case Quote => "quote"
    }
  }

  /** `ChunkType(value)`: the member with this value, if any. */
  function ParseChunkType(v: string): (r: Option<ChunkType>)
    ensures r.Some? ==> r.value.Value() == v
  {
    if v == "paragraph" then Some(Paragraph)
    else if v == "heading" then Some(Heading)
    else if v == "list_item" then Some(ListItem)
    else if v == "table_cell" then Some(TableCell)
    else if v == "code" then Some(CodeBlock)
    else if v == "caption" then Some(Caption)
    else if v == "footnote" then Some(Footnote)
    else if v == "quote" then Some(Quote)
    else None
  }

  /** Every member is recovered from its value, so no two members share one. */
  lemma ChunkTypeRoundTrip(t: ChunkType)
    ensures ParseChunkType(t.Value()) == Some(t)
  {
  }

  /** A row of the `chunks` table, with the columns the services read. */
  datatype Chunk = Chunk(
    id: string,
    documentId: string,
    content: string,
    pageNumber: Option<int>,
    sectionTitle: Option<string>,
    chunkType: string,
    confidenceWeight: real)

  /** A row of the `documents` table, with the columns the services read. */
  datatype Document = Document(
    id: string,
    filename: string,
    category: Option<string>,
    reliabilityScore: real)

  /** The section mark put before a section title in citations: the two
      characters U+0E22 U+0E07, as the program writes it. */
  const SectionMark: string := "\U{0E22}\U{0E07}"

  /** Python truthiness of an optional page number. */
  predicate HasPage(page: Option<int>) { page.Some? && page.value != 0 }

  /** Python truthiness of an optional section title. */
  predicate HasSection(section: Option<string>) { section.Some? && section.value != "" }

  /** The citation parts in order: document name, page, section. */
  function CitationParts(docName: Option<string>, page: Option<int>, section: Option<string>): (r: seq<string>)
    ensures |r| == (if docName.Some? then 1 else 0) + (if HasPage(page) then 1 else 0) + (if HasSection(section) then 1 else 0)
    ensures docName.Some? ==> r[0] == docName.value
    ensures HasPage(page) ==> "p." + IntToString(page.value) in r
    ensures HasPage(page) ==> r[if docName.Some? then 1 else 0] == "p." + IntToString(page.value)
    ensures HasSection(section) ==> r[|r| - 1] == SectionMark + section.value
  {
    (if docName.Some? then [docName.value] else [])
    + (if HasPage(page) then ["p." + IntToString(page.value)] else [])
    + (if HasSection(section) then [SectionMark + section.value] else [])
  }

  /** `Chunk.get_citation`: the parts joined by " | ", or "Chunk " and the
      first eight characters of the id when there are none. */
  function GetCitation(c: Chunk, doc: Option<Document>): (r: string)
    ensures doc.None? && !HasPage(c.pageNumber) && !HasSection(c.sectionTitle) ==> r == "Chunk " + PyTake(c.id, 8)
    ensures doc.Some? || HasPage(c.pageNumber) || HasSection(c.sectionTitle) ==>
              r == Join(" | ", CitationParts(if doc.Some? then Some(doc.value.filename) else None, c.pageNumber, c.sectionTitle))
  {
    var docName := if doc.Some? then Some(doc.value.filename) else None;
    var parts := CitationParts(docName, c.pageNumber, c.sectionTitle);
    if |parts| > 0 then Join(" | ", parts) else "Chunk " + PyTake(c.id, 8)
  }

  /** Reading a citation back: the text before the first '|', stripped, is
      the document name, provided the name is itself stripped and holds no
      '|'. */
  lemma DocumentNameOfCitation(docName: string, page: Option<int>, section: Option<string>)
    requires '|' !in docName && IsStripped(docName)
    ensures Strip(Split(Join(" | ", CitationParts(Some(docName), page, section)), '|')[0]) == docName
  {
    var parts := CitationParts(Some(docName), page, section);
    if |parts| == 1 {
      SplitNoSep(docName, '|');
    } else {
      var rest := Join(" | ", parts[1..]);
      assert Join(" | ", parts) == docName + " " + ['|'] + " " + rest;
      assert '|' !in docName + " " by {
        assert forall i :: 0 <= i < |docName| ==> (docName + " ")[i] == docName[i];
      }
      assert docName + " " + ['|'] + " " + rest == (docName + " ") + ['|'] + (" " + rest);
      SplitPrefix(docName + " ", '|', " " + rest);
      StripTrailingSpace(docName);
    }
  }

  lemma StripTrailingSpace(s: string)
    requires IsStripped(s)
    ensures Strip(s + " ") == s
  {
    var t := s + " ";
    assert TrimRight(t) == TrimRight(s) by {
      assert t[..|t| - 1] == s;
    }
    if |s| > 0 {
      assert !IsSpace(t[0]);
      assert TrimLeft(t) == t;
    } else {
      assert TrimLeft(t) == "";
    }
  }
}
