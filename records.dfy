/** The records of `library.json` as the renderer reads them. Every field the
    renderer reaches through optional chaining or a default is an `Option`:
    `None` stands for a missing, `undefined` or `null` value. */
module Records {

  datatype Option<+T> = None | Some(value: T)

  /** One entry of a document's `citations`. `notePage` holds the page as the
      template string would print it (a number already converted to text). */
  datatype Citation = Citation(
    noteBody: Option<string>,
    notePage: Option<string>,
    noteExtra: Option<string>)

  /** The `data` object of a document. */
  datatype DocData = DocData(docTitle: Option<string>)

  /** One element of `docs`. */
  datatype DocEntry = DocEntry(
    data: Option<DocData>,
    citations: Option<seq<Citation>>)
}
