# snippet: the marker parser and renderer, in Dafny

Package `snippet` finds named pieces of code in a Go file. Each piece is
fenced by two comment lines:

    // snippet NAME
    some code
    // end NAME

The markers' keywords and names are compared ignoring case. `Get` turns a
file's text into a list of snippets, or into the first error it finds.
`snippet.String` writes one snippet back out as marker text.

This project models both operations and proves that the model does what the
code promises.

- `gostrings.dfy` (module `GoStrings`) models the library functions the parser
  calls. These are `bytes.ReplaceAll` with one deleted byte, `strings.Split`
  and `strings.Join` with a one-character separator, `strings.TrimSpace`,
  `strings.Fields` and `strings.ToLower`. White space and case are ASCII only.
  Lemmas relate each function to a plain statement of what it returns:
  - deleting a character keeps every other one, in order;
  - `Split` undoes `Join`;
  - fields are tokens;
  - trimming keeps the characters between the cut ends;
  - lowering works character by character.
- `snippet.dfy` (module `Snippets`) holds the types, the constants, the
  specification and the imperative parser.
  - `Parse(text)` is `ParseLines(Lines(text))`, a function that runs the
    stages in the source's order: read the lines, check alternation, check
    names, check the count, then build.
  - `Get` is the source's loops as methods with loop invariants (`ReadRecords`,
    `CheckOrder`, `CheckPairNames`, `CollectSnippets`, `TrimLines`). It is
    proved to return `Parse(text)`.
  - `ParseStages` and `ParseSuccessStages` restate `Parse` stage by stage.
    `ScanSpec`, `AlternationSpec` and `NamesSpec` say what each stage computes.
    The remaining lemmas say what `Parse` means in terms of the lines and the
    records alone:
    - which lines are markers;
    - which one is fatal;
    - which error wins;
    - where each snippet's code comes from and that it is clean;
    - that a file without markers is accepted.
- `roundtrip.dfy` (module `RoundTrip`) re-reads rendered text. One start
  marker, code and an end marker parse into one snippet if the two names agree
  up to case, and into a name mismatch otherwise. `String` is undone by
  `Parse` for a one-token name and non-empty plain code. Empty code comes back
  as one empty line.

Points where the model follows the code rather than a prose description of it:

- A carriage return is deleted (snippet.go:59), not rejected.
- The alternation errors carry the 1-based position in the record list
  (snippet.go:100,104), not a file line.
- A start record stores the index of the line after its marker. The name
  mismatch and the unterminated error both add one to the stored value
  (snippet.go:116,134). So they cite the start marker one past its 1-based
  line number; for a pair on lines 1 and 3, the start is cited as line 2.
  `RoundTrip.ParsePair` states this. The end marker is cited at its own line.
  This is kept as written.
- A start and an end marker with no lines between them give
  `start.line == end.line`. The code is then empty. The marker lines
  themselves are strictly ordered.

`Get` returns `Result<seq<Snippet>, Err>`. On every error path the Go function
returns no snippets, so a `Failure` loses nothing. `Err` keeps the numbers and
names the messages report.

## Model

| member | source | states |
|---|---|---|
| Snippets.Get | snippet.go:53-157 | On a file already read into a string, returns exactly `Parse(text)`: CR deletion, split at line feeds, then the staged parse |
| Snippets.GetLines | snippet.go:61-157 | After the split, the record loop, the three checks with early returns and the two building loops together return `ParseLines(lines)` |
| Snippets.ReadRecords | snippet.go:61-91 | The line loop returns `Scan(lines)`: the records of the marker lines in order, or the first fatal line's error |
| Snippets.CheckOrder | snippet.go:97-107 | The alternation loop returns `CheckAlternation(records, 0)` |
| Snippets.CheckPairNames | snippet.go:109-128 | The loop over `i = 1, 3, 5, ...` returns `CheckNames(records, 1)` |
| Snippets.CollectSnippets | snippet.go:139-154 | Building one snippet per pair from the slice between its markers, then trimming every code line, gives `Build(lines, records)` |
| Snippets.TrimLines | snippet.go:148-154 | The inner loop leaves every code line replaced by its trimming, in place and in order |
| Snippets.ScanLine | snippet.go:64-91 | A line read as a marker is recorded against that line's own index; a fatal line reports its 1-based number |
| Snippets.ScanLineCases | snippet.go:64-91 | A line is ignored iff it is not a marker line or has only two fields; fatal iff it is a marker line with more than three fields; a record iff it has exactly three. The keyword matches in any case, and a record keeps line `i + 1` for a start and `i` for an end |
| Snippets.ScanSpec | snippet.go:61-91 | The scan succeeds iff no line is fatal. Then its records are in strictly increasing line order, each is what its own line reads as, and every marker line has one. Otherwise the error is the first fatal line's |
| Snippets.FirstOverlong | snippet.go:71-78 | The first marker line with more than three fields aborts the whole parse with `MalformedName` of its 1-based number, and no snippets |
| Snippets.NoOverlong | snippet.go:71-78 | Without such lines the scan succeeds and no failure is `MalformedName` |
| Snippets.NoMarkersNoError | snippet.go:93-95 | A file with no marker line gives an empty list and no error |
| Snippets.AlternationSpec | snippet.go:97-107 | The check passes iff even positions hold starts and odd positions hold ends. Otherwise it reports the first position out of turn, 1-based, as `NotStart` exactly when a start was due |
| Snippets.NamesSpec | snippet.go:109-128 | The name check passes iff every pair's names are equal after lower-casing. Otherwise it reports the first disagreeing pair with both names as written, with the start's stored line + 1 and the end's line + 1 |
| Snippets.CheckPrecedence | snippet.go:97-137 | The checks apply in order: alternation, then names, then the count. Records out of turn fail with the 1-based position of the first of them, as `NotStart` exactly when a start was due. Otherwise, disagreeing names fail with the first disagreeing pair: both names as written, the start's stored line + 1 and the end's line + 1. Otherwise, an odd count means the last record is an unclosed start, cited at its stored line + 1 |
| Snippets.ParseStages | snippet.go:61-157 | Stage by stage: the first failing stage decides the error. When all pass, every body slice is in bounds and the result is `Build` of the records |
| Snippets.ParseAccepts | snippet.go:93-137 | A file is accepted iff it has no fatal line and its records are balanced: none at all, or alternating start/end pairs with names equal up to case |
| Snippets.ParseSuccessStages | snippet.go:93-154 | On success, the records are balanced, the body slices are in bounds, and the snippets are built from the records |
| Snippets.PairSpans | snippet.go:140-145 | For balanced records in line order, `0 <= start.line <= end.line <= len(lines)` for every pair. The start's stored line is one past its marker, the end's is its marker, and later pairs lie after earlier ones |
| Snippets.ParsedSnippets | snippet.go:139-154 | On success: half as many snippets as records. Each snippet keeps the start marker's spelling of the name; its end name agrees up to case; it lies between its two marker lines with only ignored lines between; its code is those lines trimmed. Pairs are in line order and every marker line belongs to a pair |
| Snippets.ParsedCodePlain | snippet.go:139-154 | On success, every snippet name is one token. Every code line is trimmed, holds no carriage return or line feed, and is neither a record nor fatal when read again |
| Snippets.Snippet.String | snippet.go:45-51 | When no name or code line holds a line feed, the text splits into the start marker, the code (one empty line if there is none), the end marker and a final empty line |
| RoundTrip.MarkerReads | snippet.go:64-90 | `// KW NAME` with a one-token name reads as a start or end record of that name whenever `KW` lowers to `snippet` or `end` |
| RoundTrip.PairLines | snippet.go:59-63 | The text of one pair deletes no characters on CR removal and splits into its marker lines, the code lines and a final empty line |
| RoundTrip.ParsePair | snippet.go:61-154 | One pair's text parses into one snippet with the start's name and the trimmed code when the names agree up to case. Otherwise it fails with the start marker cited as line 2 (one past its real line 1) and the end marker at its own line |
| RoundTrip.RoundTrip | snippet.go:45-51 | `Get` undoes `String` for a one-token name and non-empty, trimmed code lines free of CR and LF that are not marker lines |
| RoundTrip.EmptyCodeRoundTrip | snippet.go:45-51 | A snippet with no code comes back with one empty code line |
| RoundTrip.ReparseParsed | snippet.go:45-154 | Every parsed snippet with code renders to text that parses back to that snippet alone |
| GoStrings.RemoveAll | snippet.go:59 | Deleting a character leaves none of it, adds no other character, and shortens the string by the number of occurrences removed |
| GoStrings.RemoveAllCounts | snippet.go:59 | Every other character is kept as often as the input holds it |
| GoStrings.RemoveAllAppend | snippet.go:59 | Deleting distributes over concatenation, so the kept characters stay in their order |
| GoStrings.Split | snippet.go:63 | Never an empty list; no piece holds the separator; joining the pieces with it gives back the string |
| GoStrings.SplitJoin | snippet.go:63 | Splitting undoes joining when no piece holds the separator |
| GoStrings.TrimSpaceSpec | snippet.go:65 | The result neither starts nor ends with white space, and is the slice of the input left once the white space at both ends is cut |
| GoStrings.TrimSpaceFixes | snippet.go:151 | Trimming changes a string iff it is not trimmed already |
| GoStrings.FieldsTokens | snippet.go:66 | Every field is a non-empty run without white space |
| GoStrings.FieldsEmpty | snippet.go:66-67 | A line has no fields iff it is all white space |
| GoStrings.ToLowerSpec | snippet.go:70 | Lowering keeps the length and lowers each character on its own |

## Left out

- `os.ReadFile` and its error (snippet.go:55-58) are I/O. `Get` takes the file's contents as a string.
- `gosnippet.go` is not part of this model. It is command-line plumbing: flags, exit codes and printing.
- `Compare`, `Update`, `Paths` and `ExpectSnippets` are not part of this model, because their source is not among the modelled files.
- The text of the error messages, the file name in them, and the `errors.Join` of the two mismatch messages are left out. Each error is a value carrying the numbers and names the messages report.
- White space and case are ASCII approximations of `unicode.IsSpace` and `unicode.ToLower`. Non-ASCII spaces and letters are treated as ordinary characters.
- Strings are sequences of characters rather than bytes. UTF-8 decoding is not modelled.
- Snippets.CollectSnippets: the code slices alias `lines` in the source and are trimmed in place. The model trims copies. The outcome is the same because pairs do not overlap.
- The golden-file test machinery (`compare.Test` and the testdata directory, snippet_test.go:13-42) is external.
