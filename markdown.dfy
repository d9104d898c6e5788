/** `generateMarkdown`: one document record rendered as one Markdown block,
    or as the empty string when the record has no citations. */
module Markdown {
  import opened Records
  import opened Text
  import opened Lists

  const DefaultTitle := "Untitled"
  const DefaultBody := "(empty)"
  const DefaultPage := "?"
  const NotePrefix := "  Note: "

  /** JavaScript's `x || fallback` on an optional string: a missing value and
      the empty string are both falsy. */
  function OrElse(x: Option<string>, fallback: string): (r: string)
    ensures x.Some? && x.value != "" ==> r == x.value
    ensures x.None? || x.value == "" ==> r == fallback
  {
    if x.Some? && x.value != "" then x.value else fallback
  }

  /** JavaScript's `x ?? fallback`: only a missing (null or undefined) value
      is replaced; the empty string is kept. */
  function Coalesce(x: Option<string>, fallback: string): (r: string)
    ensures x.Some? ==> r == x.value
    ensures x.None? ==> r == fallback
  {
    if x.Some? then x.value else fallback
  }

  /** `entry?.data?.doc_title`. */
  function DocTitle(e: DocEntry): Option<string> {
    if e.data.Some? then e.data.value.docTitle else None
  }

  /** `entry?.data?.doc_title || "Untitled"`: never empty, and either the
      document's own title or the default. */
  function Title(e: DocEntry): (t: string)
    ensures t != ""
    ensures t == DefaultTitle || DocTitle(e) == Some(t)
  {
    OrElse(DocTitle(e), DefaultTitle)
  }

  /** The heading falls back to "Untitled" exactly when the title is missing,
      empty, or is itself "Untitled". */
  lemma TitleFallback(e: DocEntry)
    ensures Title(e) == DefaultTitle <==>
      DocTitle(e) == None || DocTitle(e) == Some("") || DocTitle(e) == Some(DefaultTitle)
  {
  }

  /** `entry?.citations || []` (an array is always truthy). */
  function CitationsOf(e: DocEntry): seq<Citation> {
    if e.citations.Some? then e.citations.value else []
  }

  /** `note.note_body || "(empty)"`: never empty. */
  function Body(c: Citation): (w: string)
    ensures w != ""
    ensures w == DefaultBody || c.noteBody == Some(w)
    ensures c.noteBody.Some? && c.noteBody.value != "" ==> w == c.noteBody.value
    ensures c.noteBody.None? || c.noteBody.value == "" ==> w == DefaultBody
  {
    OrElse(c.noteBody, DefaultBody)
  }

  /** `note.note_page ?? "?"`: a present page is printed as it is, even when
      it is empty. */
  function Page(c: Citation): (p: string)
    ensures c.notePage.Some? ==> p == c.notePage.value
    ensures c.notePage.None? ==> p == DefaultPage
  {
    Coalesce(c.notePage, DefaultPage)
  }

  /** `extra && extra.trim() !== ""`. */
  predicate HasNote(c: Citation) {
    c.noteExtra.Some? && c.noteExtra.value != "" && Trim(c.noteExtra.value) != ""
  }

  /** A note is shown exactly when the extra text is present and holds a
      character that is not whitespace. */
  lemma NoteShownIff(c: Citation)
    ensures HasNote(c) <==>
      c.noteExtra.Some? && exists i :: 0 <= i < |c.noteExtra.value| && !IsWhitespace(c.noteExtra.value[i])
  {
  }

  /** The first row of a citation: `- Page {page}: {word}`. */
  function PageLine(c: Citation): string {
    "- Page " + Page(c) + ": " + Body(c)
  }

  /** The second row of a citation that has a note. */
  function NoteLine(extra: string): string {
    NotePrefix + extra
  }

  /** The string one citation contributes: its page row, followed by a note
      row exactly when the note is shown. */
  function CitationLine(c: Citation): (line: string)
    ensures PageLine(c) <= line
    ensures line == PageLine(c) <==> !HasNote(c)
  {
    if HasNote(c) then PageLine(c) + "\n" + NoteLine(c.noteExtra.value) else PageLine(c)
  }

  /** `generateMarkdown(entry)`: empty exactly when the record has no
      citations; otherwise it opens with the heading and a blank line. */
  function GenerateMarkdown(e: DocEntry): (block: string)
    ensures block == "" <==> CitationsOf(e) == []
    ensures block != "" ==> "## " + Title(e) + "\n\n" <= block
  {
    var cs := CitationsOf(e);
    if |cs| == 0 then "" else "## " + Title(e) + "\n\n" + Join("\n", Map(CitationLine, cs))
  }

  // ---------------------------------------------------------------------
  // Reading a block back line by line.

  /** The physical rows of one citation. */
  function Rows(c: Citation): seq<string> {
    [PageLine(c)] + (if HasNote(c) then [NoteLine(c.noteExtra.value)] else [])
  }

  /** The physical rows of all citations, in citation order. */
  function AllRows(cs: seq<Citation>): seq<string> {
    if cs == [] then [] else Rows(cs[0]) + AllRows(cs[1..])
  }

  predicate NoNewline(x: Option<string>) {
    x.None? || '\n' !in x.value
  }

  /** No field of the record holds a line break. */
  predicate SingleLineFields(e: DocEntry) {
    NoNewline(DocTitle(e)) &&
    forall c :: c in CitationsOf(e) ==>
      NoNewline(c.noteBody) && NoNewline(c.notePage) && NoNewline(c.noteExtra)
  }

  lemma {:induction false} CitationLineRows(c: Citation)
    ensures CitationLine(c) == Join("\n", Rows(c))
  {
    if HasNote(c) {
      assert Rows(c)[1..] == [NoteLine(c.noteExtra.value)];
    }
  }

  lemma {:induction false} LinesRows(cs: seq<Citation>)
    requires cs != []
    ensures AllRows(cs) != []
    ensures Join("\n", Map(CitationLine, cs)) == Join("\n", AllRows(cs))
  {
    var c := cs[0];
    CitationLineRows(c);
    if |cs| == 1 {
      assert AllRows(cs[1..]) == [];
      assert AllRows(cs) == Rows(c);
    } else {
      LinesRows(cs[1..]);
      assert Map(CitationLine, cs)[1..] == Map(CitationLine, cs[1..]);
      JoinAppend("\n", Rows(c), AllRows(cs[1..]));
    }
  }

  lemma {:induction false} AllRowsSingleLine(cs: seq<Citation>)
    requires forall c :: c in cs ==>
      NoNewline(c.noteBody) && NoNewline(c.notePage) && NoNewline(c.noteExtra)
    ensures forall i :: 0 <= i < |AllRows(cs)| ==> '\n' !in AllRows(cs)[i]
  {
    if cs != [] {
      var c := cs[0];
      AllRowsSingleLine(cs[1..]);
      assert '\n' !in DefaultBody && '\n' !in DefaultPage && '\n' !in NotePrefix;
      assert '\n' !in Page(c) && '\n' !in Body(c);
      assert '\n' !in PageLine(c);
      var rows := Rows(c);
      forall i | 0 <= i < |rows| ensures '\n' !in rows[i] {
      }
    }
  }

  /** The heading and the blank line that open every non-empty block. */
  function HeadRows(e: DocEntry): seq<string> {
    ["## " + Title(e), ""]
  }

  lemma BlockJoin(e: DocEntry)
    requires CitationsOf(e) != []
    ensures GenerateMarkdown(e) == Join("\n", HeadRows(e) + AllRows(CitationsOf(e)))
  {
    var cs := CitationsOf(e);
    var head := HeadRows(e);
    LinesRows(cs);
    JoinAppend("\n", head, AllRows(cs));
    assert Join("\n", head) == "## " + Title(e) + "\n";
  }

  lemma BlockRowsSingleLine(e: DocEntry)
    requires SingleLineFields(e)
    ensures forall i :: 0 <= i < |HeadRows(e) + AllRows(CitationsOf(e))| ==>
      '\n' !in (HeadRows(e) + AllRows(CitationsOf(e)))[i]
  {
    var cs := CitationsOf(e);
    assert '\n' !in DefaultTitle;
    assert '\n' !in "## " + Title(e);
    AllRowsSingleLine(cs);
    var all := HeadRows(e) + AllRows(cs);
    forall i | 0 <= i < |all| ensures '\n' !in all[i] {
      if i >= 2 {
        assert all[i] == AllRows(cs)[i - 2];
      }
    }
  }

  /** Read line by line, a non-empty block is its heading, one blank line,
      then for each citation in order its page row, directly followed by its
      note row when the note is shown. */
  lemma BlockRows(e: DocEntry)
    requires CitationsOf(e) != []
    requires SingleLineFields(e)
    ensures Split(GenerateMarkdown(e), '\n') == ["## " + Title(e), ""] + AllRows(CitationsOf(e))
  {
    BlockJoin(e);
    BlockRowsSingleLine(e);
    SplitJoin(HeadRows(e) + AllRows(CitationsOf(e)), '\n');
  }
}
