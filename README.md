# dmart frontend: attachment parsers and API request shaping

This project models the deterministic string logic of the dmart web
frontend. It covers two source files.

- `frontend/src/utils/attachements.ts` holds two attachment parsers.
  - `parseCSV` reads a CSV export: the first line is a preamble and is
    dropped, the second line holds the headers, and every later line becomes
    a header-to-field record.
  - `parseJSONL` parses one JSON document per line.
- `frontend/src/dmart/index.ts` is the API client. The model keeps what it
  does before each HTTP call, without the call itself.
  - `query` and `csv` fill in sort defaults on the caller's request object
    and collapse runs of `/` in its subpath.
  - `retrieve_entry` builds an entry URL. A root subpath becomes `__root__`,
    and slashes are collapsed.
  - `get_attachment_url` and `get_payload` build payload URLs.
  - `get_spaces` and `get_children` send fixed query records.

Modules:

- `Wrappers`: `Option` and `Result`.
- `JsString`: the JavaScript built-ins the core relies on, as functions on
  `seq<char>`: `trim`, `split` on one character, and `join`, which undoes
  `split`.
- `Paths`: the three rewrites of URL paths, each with a reference definition
  or characterisation.
  - `replace(/\/+/g, "/")` is `CollapseSlashes`.
  - `replace(/\/+$/, "")` is `StripTrailingSlashes`.
  - `replaceAll("..", ".")` is `ReplaceDotDot`.
- `Attachments`: the two parsers.
  - `ParseCsv` is a method: a shift of the line array, then a loop that
    builds the records. Each record comes from `BuildRecord`, a loop that
    assigns into an accumulator map just as the `reduce` does.
    `ParseCsv` is proved against the function `CsvTable`, and
    `BuildRecord` against the function `Record`.
  - `ParseJsonl` is a function. `JSON.parse` is its parameter `parse`.
- `Dmart`: the API client.
  - `QueryRequest` is a class whose fields `Query` and `Csv` assign in
    place. Each is proved against a function on the request's value:
    `QueryDefaults` or `CsvDefaults`.
  - URLs are functions of their arguments and of `backend`, which stands
    for `website.backend`.

Thrown errors become `Result` failures.

- `parseCSV` on a trimmed input without a newline fails with
  `MissingHeaderLine`. In JavaScript, `lines[0]` is `undefined` after the
  shift, so `.split` throws.
- `parseJSONL` fails with `MalformedLine(i)`, where `i` is the first line
  that `parse` rejects.

Three consequences of the code are worth stating on their own:

- Blank lines are not skipped: a blank line goes to `JSON.parse` and the
  whole call fails (`JsonlBlankLineFails`, `JsonlBlankInputFails`).
- There is no dedicated empty-input error: `lines[0].split` throws, which is
  `MissingHeaderLine`, exactly when the trimmed input has no newline
  (`CsvFailsIff`).
- A record is an object keyed by header name, so its key set is the set of
  header names: repeated headers give fewer keys, and the later column wins
  (`RecordKeys`, `RecordValue`).

## Model

| member | source | states |
|---|---|---|
| JsString.Trim | frontend/src/utils/attachements.ts:2 | `trim` returns an infix of its input, with only whitespace before and after it, that neither starts nor ends with whitespace |
| JsString.TrimIdempotent | frontend/src/utils/attachements.ts:2 | trimming a trimmed string changes nothing |
| JsString.Split | frontend/src/utils/attachements.ts:2 | `split` on one character gives one more piece than there are separators, and no piece holds the separator |
| JsString.JoinSplit | frontend/src/utils/attachements.ts:2 | joining the pieces of `split` with the separator gives back the input |
| JsString.SplitJoin | frontend/src/utils/attachements.ts:2 | `split` undoes `join` when no piece holds the separator |
| JsString.SplitNoSep | frontend/src/utils/attachements.ts:2 | a string without the separator splits into itself alone |
| JsString.SplitAppend | frontend/src/utils/attachements.ts:2 | splitting at a separator splits each side independently |
| JsString.SplitEmptyPiece | frontend/src/utils/attachements.ts:19 | two newlines in a row yield an empty line, at the position after the lines before them |
| Attachments.Cell | frontend/src/utils/attachements.ts:10 | the field or `null` (JavaScript's falsy default): present exactly when the column exists and its field is non-empty, and then it is that field verbatim |
| Attachments.Record | frontend/src/utils/attachements.ts:9-12 | the last header is bound to the last column's cell, overwriting any earlier binding; RecordKeys and RecordValue state the whole record |
| Attachments.RecordKeys | frontend/src/utils/attachements.ts:9-12 | the object built by the `reduce` has exactly the header names as keys |
| Attachments.RecordValue | frontend/src/utils/attachements.ts:10 | under a header stands the field at that header's last column, or `null` when that field is absent or empty |
| Attachments.RecordDropsExtraFields | frontend/src/utils/attachements.ts:8-12 | fields past the last header do not affect the record |
| Attachments.BuildRecord | frontend/src/utils/attachements.ts:9-12 | the accumulator loop yields the record: header names as keys, each bound to its last column's field or `null` |
| Attachments.ParseCsv | frontend/src/utils/attachements.ts:1-16 | the shift-and-map procedure computes `CsvTable`; it succeeds exactly when the trimmed input holds a newline, and then has one row per newline minus one |
| Attachments.CsvTable | frontend/src/utils/attachements.ts:1-16 | what `parseCSV` resolves to: on success, the headers are the comma-split of the second trimmed line and there is one row per newline minus one; CsvFailsIff, CsvFromLines and CsvRowFields state the rest |
| Attachments.TableOfLines | frontend/src/utils/attachements.ts:3-13 | a table exists exactly when there are at least two lines, with one row per line after the second |
| Attachments.CsvFailsIff | frontend/src/utils/attachements.ts:2-5 | the parse fails exactly when the trimmed input is a single line (including the empty input) |
| Attachments.CsvFromLines | frontend/src/utils/attachements.ts:2-13 | for a trimmed input made of lines `l0, l1, ...`: `l0` is dropped, the headers are `l1` split on commas, and record `k` is built from line `k + 2`, in order |
| Attachments.TableOfLinesRows | frontend/src/utils/attachements.ts:5-13 | from two lines on, the table has one record per line after the header line, in order |
| Attachments.CsvRowFields | frontend/src/utils/attachements.ts:7-12 | each row's keys are the headers, and each header's value is the field of its last column in the corresponding line, or `null` |
| Attachments.CsvExample | frontend/src/utils/attachements.ts:1-16 | "preamble\na,b\n1,2\n3\n" gives headers `a, b` and rows `{a: "1", b: "2"}` and `{a: "3", b: null}` |
| Attachments.ParseEach | frontend/src/utils/attachements.ts:20 | the `map` over `JSON.parse` succeeds exactly when every line parses, giving the parses in order; otherwise it reports the first line that fails |
| Attachments.ParseJsonl | frontend/src/utils/attachements.ts:18-21 | `parseJSONL` succeeds exactly when every line of the trimmed input parses, and then gives one value per line, in order; JsonlFromLines, JsonlBlankLineFails and JsonlBlankInputFails state it in terms of the input's lines |
| Attachments.JsonlFromLines | frontend/src/utils/attachements.ts:18-21 | for a trimmed input made of lines that all parse, the output has one value per line, in order, each being the parse of its line |
| Attachments.JsonlBlankLineFails | frontend/src/utils/attachements.ts:19-20 | a blank interior line makes the whole call fail, with no partial result |
| Attachments.JsonlBlankInputFails | frontend/src/utils/attachements.ts:19-20 | blank input is the one line "", which fails at line 0 |
| Paths.CollapseSlashes | frontend/src/dmart/index.ts:396 | the rewrite yields no two adjacent slashes, keeps every other character in order, keeps the first character, and never lengthens |
| Paths.CollapseExpands | frontend/src/dmart/index.ts:396 | the input is the result with each slash stretched into a run of one or more slashes |
| Paths.CollapseUnique | frontend/src/dmart/index.ts:396 | any string without adjacent slashes that expands to the input is the result: one slash per maximal run |
| Paths.CollapseFixpoint | frontend/src/dmart/index.ts:396 | a string is unchanged exactly when it has no adjacent slashes, so applying the rewrite twice equals applying it once |
| Paths.CollapseDoubleSlash | frontend/src/dmart/index.ts:457-461 | doubling a slash anywhere in the template does not change the collapsed result |
| Paths.CollapseAroundSegment | frontend/src/dmart/index.ts:457-461 | a slash added before or after a segment that sits between slashes is collapsed away |
| Paths.StripTrailingSlashes | frontend/src/dmart/index.ts:542-544 | the result is a prefix of the input followed only by slashes, and does not end in a slash |
| Paths.StripTrailingUnique | frontend/src/dmart/index.ts:542-544 | exactly one string has those three properties |
| Paths.StripTrailingSlash | frontend/src/dmart/index.ts:542-544 | an extra trailing slash does not change the stripped string |
| Paths.ReplaceDotDot | frontend/src/dmart/index.ts:545 | `replaceAll("..", ".")` never lengthens and deletes only dots |
| Paths.ReplaceDotDotNoop | frontend/src/dmart/index.ts:545 | a string without ".." is left unchanged |
| Paths.ReplaceDotDotConcat | frontend/src/dmart/index.ts:545 | the rewrite works piecewise across a boundary that no dot precedes |
| Paths.ReplaceDotRun | frontend/src/dmart/index.ts:545 | a maximal run of n dots becomes `HalfUp(n)` dots: pairs merge left to right and an odd dot survives |
| Paths.HalfUpRoundsUp | frontend/src/dmart/index.ts:545 | `HalfUp(n)` is half of n, rounded up |
| Dmart.OrElse | frontend/src/dmart/index.ts:393-394 | JavaScript's falsy default on an optional string keeps a present non-empty value and otherwise gives the fallback |
| Dmart.QueryDefaults | frontend/src/dmart/index.ts:391-397 | outside `spaces` queries, sort order and key get defaults ("ascending", "created_at") and present non-empty values are kept; a `spaces` query keeps both as given; the subpath is collapsed; no other field changes |
| Dmart.QueryDefaultsIdempotent | frontend/src/dmart/index.ts:391-397 | applying `query`'s normalisation twice equals applying it once |
| Dmart.Query | frontend/src/dmart/index.ts:391-397 | the in-place assignments leave the request object equal to `QueryDefaults` of its previous value |
| Dmart.CsvDefaults | frontend/src/dmart/index.ts:405-410 | `csv` always sets the sort key to "created_at", defaults the sort order to ascending, collapses the subpath, and changes nothing else |
| Dmart.Csv | frontend/src/dmart/index.ts:405-410 | the in-place assignments leave the request object equal to `CsvDefaults` of its previous value |
| Dmart.CsvAgreesWithQuery | frontend/src/dmart/index.ts:392-395 | outside `spaces`, `csv` and `query` send the same request exactly when the caller's sort key is unset, empty or "created_at" |
| Dmart.QueryRequest.constructor | frontend/src/dmart/index.ts:189-209 | a new request object holds exactly the given field values |
| Dmart.SpacesRequestUnchanged | frontend/src/dmart/index.ts:503-511 | `query` sends the `get_spaces` literal unchanged: no sort fields, subpath "/" |
| Dmart.GetSpaces | frontend/src/dmart/index.ts:503-511 | `get_spaces` sends a `spaces` query on "management", subpath "/", search "", limit 100 |
| Dmart.ChildrenRequestSent | frontend/src/dmart/index.ts:513-530 | `get_children` sends an exact-subpath search with an empty search string on the collapsed subpath, sorted ascending by "created_at", with the caller's limit, offset and type filter |
| Dmart.GetChildren | frontend/src/dmart/index.ts:513-530 | the request object `get_children` hands to `query` ends up as `QueryDefaults` of its literal |
| Dmart.EntryUrl | frontend/src/dmart/index.ts:456-462 | the URL is the backend, unchanged, followed by the collapsed template built with `EntrySubpath(subpath)`; that path starts with `/` and has no two adjacent slashes |
| Dmart.EntrySubpath | frontend/src/dmart/index.ts:456 | "" and "/" become "__root__", any other subpath is used as given, and the result is never "" or "/" |
| Dmart.EntryUrlVerbatimSubpath | frontend/src/dmart/index.ts:456-462 | for a subpath other than "" and "/", the URL is the backend followed by the collapsed template built with that subpath itself |
| Dmart.RetrieveEntryUrl | frontend/src/dmart/index.ts:447-466 | reassigning a root subpath, then building and collapsing the template, gives `EntryUrl` |
| Dmart.EntryUrlRootAliases | frontend/src/dmart/index.ts:456 | the subpaths "", "/" and "__root__" give the same URL |
| Dmart.EntryUrlSubpathSlashes | frontend/src/dmart/index.ts:456-462 | a leading or trailing slash on any subpath other than "/" does not change the URL |
| Dmart.AttachmentUrl | frontend/src/dmart/index.ts:532-547 | the URL is the backend, unchanged, followed by the template with ".." rewritten |
| Dmart.AttachmentUrlTrailingSlash | frontend/src/dmart/index.ts:542-544 | a trailing slash on the subpath does not change the attachment URL |
| Dmart.AttachmentUrlDottedExt | frontend/src/dmart/index.ts:545 | an extension passed with its leading dot gives the same URL as the bare extension |
| Dmart.PayloadUrl | frontend/src/dmart/index.ts:556-569 | the URL is the backend followed by the payload path, ending in the shortname and the extension |
| Dmart.PayloadUrlKeepsSlashes | frontend/src/dmart/index.ts:561-565 | `get_payload` does no normalisation: a subpath ending in `/` leaves "//" in the URL |
| Dmart.AttachmentUrlIsPayloadUrl | frontend/src/dmart/index.ts:532-569 | for dot-free names and a subpath without a trailing slash, the attachment URL equals the payload URL under `subpath/parent` with extension "." + ext |

## Left out

- The axios interceptors (frontend/src/dmart/index.ts:11-56): loading-counter stores, toasts and the asynchronous sign-out are UI side effects.
- Every HTTP call, and the response each function returns. `Query`, `Csv`, `GetSpaces` and `GetChildren` end with the request object as it would be posted. `RetrieveEntryUrl` ends with the URL it would fetch.
- `localStorage`, and the `FormData`/`Blob` construction of `upload_with_payload`, are browser I/O.
- `JSON.parse` is the parameter `parse` (success or failure). Its grammar is not modelled.
- `console.log` calls and the `async`/Promise wrapping of `parseCSV` have no effect on the result.
- The other client functions (login, profile, space, request, upload, health, progress_ticket and the rest) are only HTTP calls.
- The type and enum declarations have no behaviour. Only `QueryType` and `SortyType` (as `SortType`) are kept. Resource types are plain strings.
- `aggregation_data` of `QueryRequest` is a passive field that no modelled function reads or writes.
- Dmart.Query: `sort_type` is typed `Option<SortType>`, so an empty-string `sort_type` is not representable. For `csv`, whose argument is untyped, such a value would be replaced by "ascending".
- Dmart.Csv: `csv` catches errors, for instance a request without a `subpath`. The model requires the subpath field, so that path does not arise.
- Attachments.ParseCsv: JavaScript objects treat a header named `__proto__` specially. The model treats every header as a plain key.
- Attachments.ParseEach: the index in `MalformedLine` is an addition. JavaScript throws a `SyntaxError` without a line number.
- JsString.Trim: the whitespace set is the ECMAScript WhiteSpace and LineTerminator code points as of Unicode 15. Later Unicode versions may change it.
- Strings are sequences of characters. UTF-16 surrogate pairs are not modelled separately, and no operation here depends on them.
