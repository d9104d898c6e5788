/** The drop handler: it checks the dropped file's name, opens its bytes as a
    zip archive, reads `library.json`, renders the documents, and replaces
    the displayed output with the blocks or with one diagnostic line. */
module App {
  import opened Records
  import opened Text
  import opened Transform

  const UnsupportedMessage := "Unsupported file type. Only .zip or disguised .bak accepted."
  const NotFoundMessage := "library.json not found in archive."
  const FailureMessage := "Failed to unzip or read library.json"

  /** What reading `library.json` as text and `JSON.parse(text).docs` give. */
  datatype Library =
    | Unreadable                          // the text read or `JSON.parse` threw
    | Parsed(docs: Option<seq<DocEntry>>) // `None`: there is no `docs` array to map over

  /** The dropped bytes opened as a zip archive, whatever the file's name. */
  datatype Archive =
    | NotAZip                             // `loadAsync` rejected the bytes
    | Zip(libraryJson: Option<Library>)   // `None`: no entry named `library.json`

  datatype DroppedFile = DroppedFile(name: string, content: Archive)

  /** The three ways a conversion can end. */
  datatype Outcome =
    | Blocks(blocks: seq<string>)
    | NotFound
    | Failed

  /** `fileName.endsWith(".bak") || fileName.endsWith(".zip")`. */
  predicate SupportedName(name: string) {
    EndsWith(name, ".bak") || EndsWith(name, ".zip")
  }

  /** The archive holds a readable `library.json` with a `docs` array. */
  predicate HasDocs(a: Archive) {
    a.Zip? && a.libraryJson.Some? && a.libraryJson.value.Parsed? && a.libraryJson.value.docs.Some?
  }

  /** The body of the `try` block: a missing entry is reported as such; every
      other failure to open, read, parse or map is caught as one failure;
      otherwise the rendered blocks. */
  function Convert(a: Archive): (r: Outcome)
    ensures r.Blocks? <==> HasDocs(a)
    ensures r.Blocks? ==> r.blocks == TransformDocs(a.libraryJson.value.docs.value)
    ensures r.NotFound? <==> a == Zip(None)
  {
    match a
    case NotAZip => Failed
    case Zip(None) => NotFound
    case Zip(Some(Unreadable)) => Failed
    case Zip(Some(Parsed(None))) => Failed
    case Zip(Some(Parsed(Some(docs)))) => Blocks(TransformDocs(docs))
  }

  /** The value handed to `setOutput` for an outcome: the blocks, or exactly
      one diagnostic line. */
  function Report(r: Outcome): (lines: seq<string>)
    ensures r.Blocks? ==> lines == r.blocks
    ensures !r.Blocks? ==> |lines| == 1
    ensures r.NotFound? ==> lines[0] == NotFoundMessage
    ensures r.Failed? ==> lines[0] == FailureMessage
  {
    match r
    case Blocks(bs) => bs
    case NotFound => [NotFoundMessage]
    case Failed => [FailureMessage]
  }

  /** The component's `output` state. */
  class Converter {
    var output: seq<string>

    /** `useState([])`. */
    constructor ()
      ensures output == []
    {
      output := [];
    }

    /** `onDrop(acceptedFiles)`: only the first file is looked at; no file
        leaves the output as it was; otherwise the output is replaced as a
        whole by the outcome for that file. */
    method OnDrop(acceptedFiles: seq<DroppedFile>)
      modifies this
      ensures acceptedFiles == [] ==> output == old(output)
      ensures acceptedFiles != [] && !SupportedName(acceptedFiles[0].name) ==>
        output == [UnsupportedMessage]
      ensures acceptedFiles != [] && SupportedName(acceptedFiles[0].name) ==>
        var a := acceptedFiles[0].content;
        output == Report(Convert(a)) &&
        (a == Zip(None) ==> output == [NotFoundMessage]) &&
        (!HasDocs(a) && a != Zip(None) ==> output == [FailureMessage]) &&
        (HasDocs(a) ==> output == TransformDocs(a.libraryJson.value.docs.value))
    {
      if acceptedFiles == [] {
        return;
      }
      var file := acceptedFiles[0];
      var isBak := EndsWith(file.name, ".bak");
      var isZip := EndsWith(file.name, ".zip");
      if isBak || isZip {
        output := Report(Convert(file.content));
      } else {
        output := [UnsupportedMessage];
      }
    }

    /** The text shown under the drop zone: nothing while the output is
        empty, otherwise the output lines joined by blank lines. */
    function Shown(): (r: Option<string>)
      reads this
      ensures r.None? <==> output == []
      ensures output != [] ==> r == Some(Join("\n\n", output))
      ensures |output| == 1 ==> r == Some(output[0])
    {
      if |output| > 0 then Some(Join("\n\n", output)) else None
    }
  }

  /** An archive without a usable `docs` array gives exactly one diagnostic
      line, never partial blocks: the not-found line exactly when the archive
      has no `library.json` entry, the failure line otherwise. */
  lemma DiagnosticsAreSingleLines(a: Archive)
    requires !HasDocs(a)
    ensures Report(Convert(a)) == [NotFoundMessage] || Report(Convert(a)) == [FailureMessage]
    ensures Report(Convert(a)) == [NotFoundMessage] <==> a == Zip(None)
  {
  }

  /** Dropping the same file twice on a converter shows the same output
      twice, whatever that converter showed before. */
  method DropTwice(app: Converter, files: seq<DroppedFile>) returns (first: seq<string>, second: seq<string>)
    requires files != []
    modifies app
    ensures first == second && app.output == second
    ensures SupportedName(files[0].name) ==> first == Report(Convert(files[0].content))
    ensures !SupportedName(files[0].name) ==> first == [UnsupportedMessage]
  {
    app.OnDrop(files);
    first := app.output;
    app.OnDrop(files);
    second := app.output;
  }
}
