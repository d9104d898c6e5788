# ReadEra library converter: Dafny model

This project models the core of a small browser tool. The tool takes a ReadEra
backup (a `.bak` file, which is a renamed zip archive) or a plain `.zip`. It
reads the archive's `library.json` and turns every document that has
citations into one Markdown block:

```
## {title}

- Page {page}: {body}
  Note: {extra}
- Page {page}: {body}
```

The model has six modules:

- `Records` (records.dfy): the parsed `docs` records. Every field that the
  renderer reads through optional chaining or a default is an `Option`.
- `Text` (text.dfy): the string operations the code relies on.
  - `trim`, over the ECMAScript whitespace and line-terminator characters.
  - `endsWith` and `join`.
  - A one-character `split`, proved to be the inverse of `join`. It is used
    to read a rendered block back line by line.
- `Markdown` (markdown.dfy): `generateMarkdown`, with its defaulting rules,
  the blank-note test and the block layout.
- `Lists` (lists.dfy): `Array.prototype.map` and `filter` over sequences.
- `Transform` (transform.dfy): `docs.map(generateMarkdown).filter(Boolean)`.
- `App` (app.dfy): the drop handler, as a `Converter` class.
  - Its `output` field is the component's `output` state.
  - `OnDrop` replaces that field the way the handler calls `setOutput`.
  - Opening the zip and parsing the JSON are abstract inputs. An `Archive`
    is either not a zip or holds an optional `library.json` entry. That
    entry is either unreadable or parsed into an optional `docs` array.

Two details of the handler that the model keeps:

- The unsupported-type line is the handler's full sentence (src/App.jsx:62).
- A parsed library without `docs` throws at `undefined.map`
  (src/App.jsx:53-55), so it shows the failure line.

## Model

| member | source | states |
|---|---|---|
| `Text.Trim` | src/App.jsx:19 | `trim()` gives the empty string exactly when every character is whitespace; otherwise the result starts and ends with a character that is not whitespace, and it is never longer than the input |
| `Text.EndsWithIff` | src/App.jsx:37-38 | `endsWith(suffix)` holds exactly when the name is some prefix followed by the suffix |
| `Text.Join` | src/App.jsx:25 | `join` of no elements is empty; otherwise its length is the elements' total length plus one separator between each pair of neighbours |
| `Text.JoinAppend` | src/App.jsx:25 | joining two non-empty lists puts exactly one separator where they meet |
| `Text.SplitJoin` | src/App.jsx:25 | splitting a joined list on a one-character separator gives the list back, provided no element contains the separator |
| `Text.JoinSplit` | src/App.jsx:25 | joining the pieces of a split gives the original string back |
| `Lists.Map` | src/App.jsx:13-23 | `map` gives one result per element, with result i computed from element i |
| `Lists.Filter` | src/App.jsx:55 | `filter` keeps exactly the input elements that pass the test, so every kept element passes, and it never grows the list |
| `Lists.MapAppend` | src/App.jsx:55 | mapping a concatenation gives the concatenation of the mapped parts |
| `Lists.FilterAppend` | src/App.jsx:55 | filtering a concatenation gives the concatenation of the filtered parts, so relative order is kept |
| `Lists.FilterMap` | src/App.jsx:55 | filtering the images keeps the images of exactly the elements whose image passes, in order |
| `Markdown.Title` | src/App.jsx:8 | the heading title is never empty; it is either "Untitled" or the document's own `doc_title` |
| `Markdown.TitleFallback` | src/App.jsx:8 | the title is "Untitled" exactly when `data` or `doc_title` is missing, `doc_title` is the empty string, or `doc_title` is "Untitled" |
| `Markdown.Body` | src/App.jsx:14 | the body text is never empty: it is "(empty)" when `note_body` is missing or empty, and a present non-empty `note_body` is printed as it is |
| `Markdown.Page` | src/App.jsx:15 | a present page is printed as it is, even when empty; only a missing or null page becomes "?" |
| `Markdown.NoteShownIff` | src/App.jsx:16-21 | a note row is added exactly when `note_extra` is present and holds a character that is not whitespace |
| `Markdown.CitationLine` | src/App.jsx:18-22 | a citation's text starts with its `- Page {page}: {body}` row, and is exactly that row when no note is shown |
| `Markdown.GenerateMarkdown` | src/App.jsx:7-26 | the block is empty exactly when the record has no citations, whatever its title; a non-empty block opens with `## {title}` and a blank line |
| `Markdown.CitationLineRows` | src/App.jsx:18-21 | a citation's text is its page row, joined by a line break to its note row when that row is shown |
| `Markdown.BlockJoin` | src/App.jsx:25 | a non-empty block is the heading row, a blank row and every citation's rows, in order, joined by line breaks |
| `Markdown.BlockRows` | src/App.jsx:13-25 | read line by line, a block whose fields hold no line break is its heading, one blank line, then the page row of each citation in order, each directly followed by its note row when shown |
| `Transform.TransformKeepsCited` | src/App.jsx:55 | the output is exactly the blocks of the documents with citations, in document order, one block per such document, because every such block is non-empty and every other document's block is empty |
| `Transform.TransformHeadings` | src/App.jsx:55 | every block in the output starts with `## ` |
| `Transform.TransformAppend` | src/App.jsx:55 | the transform of two lists of documents, one after the other, is the transform of the first followed by that of the second, so relative order is kept |
| `Transform.UncitedDropped` | src/App.jsx:9-11 | a document with no citations adds no block, whatever its title |
| `Transform.AlphaBlock` | src/App.jsx:7-26 | the record titled "Alpha" with one citation (page 3, body "hello", no note) renders as `## Alpha`, a blank line and `- Page 3: hello` |
| `Transform.AlphaBetaExample` | src/App.jsx:7-26 | "Alpha" with one citation on page 3 and "Beta" with none give exactly the one block `## Alpha\n\n- Page 3: hello` |
| `Transform.BlankNoteExample` | src/App.jsx:19-21 | a whitespace-only note adds no row |
| `Transform.TextNoteExample` | src/App.jsx:19-21 | a note with text adds `  Note: {extra}` on the row directly under its page row |
| `App.Convert` | src/App.jsx:41-60 | the conversion yields blocks exactly when the archive holds a parsed `library.json` with a `docs` array, and those blocks are the transform of `docs`; it reports "not found" exactly when the archive has no `library.json`; every other case is a failure |
| `App.Report` | src/App.jsx:46-59 | the blocks are shown as they are; every other outcome shows exactly one diagnostic line, the not-found line or the failure line |
| `App.DiagnosticsAreSingleLines` | src/App.jsx:46-59 | an archive without a usable `docs` array shows one diagnostic line and no blocks; it is the not-found line exactly when `library.json` is missing |
| `App.Converter.constructor` | src/App.jsx:30 | the output starts empty |
| `App.Converter.OnDrop` | src/App.jsx:32-64 | no file leaves the output unchanged; a name ending in neither `.bak` nor `.zip` gives exactly the unsupported-type line; otherwise the output is replaced as a whole by the not-found line, the failure line, or the transformed blocks |
| `App.Converter.Shown` | src/App.jsx:93-97 | nothing is shown while the output is empty; otherwise the output lines joined by a blank line, so a single line is shown as it is |
| `App.DropTwice` | src/App.jsx:32-64 | dropping the same file twice on a converter gives the same output both times, whatever that converter showed before |

## Left out

- Opening the zip archive (JSZip `loadAsync`), re-wrapping the dropped file
  as `renamed.zip`, and reading the entry as text. These are a foreign
  library and asynchronous I/O. They are an abstract `Archive` input: not a
  zip, no `library.json` entry, an unreadable entry, or parsed documents.
- `JSON.parse`. The parsed library is an input. A parse failure is the
  `Unreadable` case, and a missing `docs` array is `Parsed(None)`.
- The name lookup `content.file("library.json")` is exact and
  case-sensitive. The model only sees whether the entry exists.
- React, the dropzone wiring (`accept`, `multiple: false`), JSX, styling and
  `console.error`. The dropzone may filter files before the handler runs; the
  model starts at the handler.
- Asynchrony. A second drop while a first is still running is not modelled.
  `OnDrop` runs to completion in one step.
- JavaScript truthiness on values that are not strings. Not modelled:
  - a numeric or `null` title;
  - a `null` document (`entry?.` would render it as an empty block);
  - a `null` citation (`note.note_body` would throw into the failure line);
  - a non-array `citations` value;
  - a truthy `note_extra` that is not a string, such as a number or an
    object (`extra.trim()` throws, so the whole drop shows the failure line);
  - a `note_body` of `0` or another falsy non-string (it becomes "(empty)").
- Number-to-string conversion of `note_page`. The page is a string already
  in the form the template literal prints.
- Markdown.Page: states `??` only for strings, because numeric pages are
  modelled as their printed text.
- Unicode details of `trim`. The whitespace set is the fixed ECMAScript
  WhiteSpace and LineTerminator list, and strings are sequences of Unicode
  scalar values rather than UTF-16 code units.
