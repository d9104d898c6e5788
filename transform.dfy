/** `docs.map(generateMarkdown).filter(Boolean)`: the blocks of the documents
    that have citations, in document order. */
module Transform {
  import opened Records
  import opened Markdown
  import opened Lists
  import opened Text

  /** `Boolean(block)`: the empty string is the only falsy string. */
  predicate Truthy(block: string) {
    block != ""
  }

  predicate HasCitations(e: DocEntry) {
    CitationsOf(e) != []
  }

  /** `docs.map(generateMarkdown).filter(Boolean)`. */
  function TransformDocs(docs: seq<DocEntry>): seq<string> {
    Filter(Truthy, Map(GenerateMarkdown, docs))
  }

  /** The transform renders exactly the documents with citations, one block
      each, in document order: no block of such a document is dropped, and
      every other document's block is. */
  lemma TransformKeepsCited(docs: seq<DocEntry>)
    ensures TransformDocs(docs) == Map(GenerateMarkdown, Filter(HasCitations, docs))
    ensures |TransformDocs(docs)| == |Filter(HasCitations, docs)|
  {
    forall e | e in docs ensures Truthy(GenerateMarkdown(e)) <==> HasCitations(e) {
    }
    FilterMap(Truthy, GenerateMarkdown, HasCitations, docs);
  }

  /** Every block shown starts with a heading. */
  lemma TransformHeadings(docs: seq<DocEntry>)
    ensures forall i :: 0 <= i < |TransformDocs(docs)| ==> "## " <= TransformDocs(docs)[i]
  {
    var blocks := Map(GenerateMarkdown, docs);
    var shown := TransformDocs(docs);
    forall i | 0 <= i < |shown| ensures "## " <= shown[i] {
      assert shown[i] in shown;
      var j :| 0 <= j < |blocks| && blocks[j] == shown[i];
      var t := Title(docs[j]);
      assert "## " + t + "\n\n" <= shown[i];
    }
  }

  /** The transform works document by document: transforming two lists of
      documents one after the other gives the blocks of the first list
      followed by those of the second. */
  lemma TransformAppend(xs: seq<DocEntry>, ys: seq<DocEntry>)
    ensures TransformDocs(xs + ys) == TransformDocs(xs) + TransformDocs(ys)
  {
    MapAppend(GenerateMarkdown, xs, ys);
    FilterAppend(Truthy, Map(GenerateMarkdown, xs), Map(GenerateMarkdown, ys));
  }

  /** A document with no citations contributes no block, whatever its title. */
  lemma UncitedDropped(docs: seq<DocEntry>, e: DocEntry)
    requires CitationsOf(e) == []
    ensures TransformDocs(docs + [e]) == TransformDocs(docs)
  {
    TransformAppend(docs, [e]);
    assert Map(GenerateMarkdown, [e]) == [""];
  }

  /** Alpha's citation: page 3, body "hello", no note. */
  lemma AlphaLine(c: Citation)
    requires c == Citation(Some("hello"), Some("3"), None)
    ensures CitationLine(c) == "- Page 3: hello"
  {
    assert Page(c) == "3" && Body(c) == "hello";
  }

  /** Alpha's block: its heading, a blank line and its one page row. */
  lemma AlphaBlock(alpha: DocEntry)
    requires alpha == DocEntry(Some(DocData(Some("Alpha"))),
                               Some([Citation(Some("hello"), Some("3"), None)]))
    ensures GenerateMarkdown(alpha) == "## " + "Alpha" + "\n\n" + "- Page 3: hello"
  {
    var c := alpha.citations.value[0];
    assert CitationsOf(alpha) == [c];
    assert Title(alpha) == "Alpha";
    AlphaLine(c);
    assert Map(CitationLine, [c]) == ["- Page 3: hello"];
  }

  /** A two-document library: "Alpha" with one citation on page 3, "Beta"
      with none. Only Alpha's block is shown. */
  lemma AlphaBetaExample(alpha: DocEntry, beta: DocEntry)
    requires alpha == DocEntry(Some(DocData(Some("Alpha"))),
                               Some([Citation(Some("hello"), Some("3"), None)]))
    requires beta == DocEntry(Some(DocData(Some("Beta"))), Some([]))
    ensures TransformDocs([alpha, beta]) == ["## Alpha\n\n- Page 3: hello"]
  {
    AlphaBlock(alpha);
    assert "## " + "Alpha" + "\n\n" + "- Page 3: hello" == "## Alpha\n\n- Page 3: hello";
    var block := GenerateMarkdown(alpha);
    assert GenerateMarkdown(beta) == "";
    var blocks := Map(GenerateMarkdown, [alpha, beta]);
    assert blocks == [block, ""];
    assert Filter(Truthy, blocks) == [block] + Filter(Truthy, blocks[1..]);
  }

  /** A note that is whitespace only, such as two spaces, adds no row. */
  lemma BlankNoteExample(extra: string)
    requires extra == "  "
    ensures CitationLine(Citation(Some("w"), Some("1"), Some(extra))) == "- Page 1: w"
  {
    var blank := Citation(Some("w"), Some("1"), Some(extra));
    assert AllWhitespace(extra);
    NoteShownIff(blank);
    assert !HasNote(blank);
  }

  /** A note with text, such as "see fig 2", adds one row directly under its
      page row. */
  lemma TextNoteExample(extra: string)
    requires extra == "see fig 2"
    ensures CitationLine(Citation(Some("w"), Some("1"), Some(extra))) ==
      "- Page 1: w\n  Note: " + extra
  {
    var noted := Citation(Some("w"), Some("1"), Some(extra));
    assert !IsWhitespace(extra[0]);
    NoteShownIff(noted);
    assert HasNote(noted);
  }
}
