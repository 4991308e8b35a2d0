# maas core in Dafny

maas is a small web dashboard for macOS launchd services. This project models
its pure logic as immutable datatypes and total functions, with lemmas about
them:

- **Service-list parser** (`services.dfy`, module `ServiceList`). It turns the
  text printed by `launchctl list` into `{pid, status, label}` records. The
  header line is dropped. Blank lines and lines with fewer than three tokens
  are skipped. A `-` pid becomes `"Not Running"`. The label is the remaining
  tokens joined by single spaces.
- **Dashboard filter** (`dashboard.dfy`, module `Dashboard`). This covers the
  keyword selection (toggle, clear), the case-insensitive substring filter and
  the Running/Stopped badge.
- **LaunchAgent generator** (`plist.dfy`, module `PlistGenerator`). This covers
  the form edits (arguments, environment variables) and the default log paths
  derived from a dotted label. It also covers the property-list text, the
  download file name, the install command and the validity of the form.
  - The text is proved to be exactly the serialisation of a keyed entry list
    (`GenerateIsDocument`). Its content is stated on that list.
- **Label store** (`labelstore.dfy`, module `LabelStore`). This is the
  `service_labels` table: rows in id order, AUTOINCREMENT ids and UNIQUE
  labels. Listing is ordered by label. Insertion may hit a UNIQUE violation.
  Deletion by id or by label reports whether a row went.
- **Labels API** (`labelsroute.dfy`, module `LabelsApi`). These are the GET,
  POST and DELETE handlers as functions from a table and a request to a table
  and a response. They carry the exact status codes and messages. They include
  JavaScript's `parseInt(s, 10)` for the `id` parameter. The file also holds a
  request-sequence model and the invariant every reachable table keeps.

The supporting modules are:

- `Text`: JavaScript whitespace, `trim`, ASCII `toLowerCase`, `includes`.
- `Delimited`: `split` on one character, `join`.
- `Tokens`: `trim().split(/\s+/)` as maximal runs of non-space characters.
- `Subsequence`: order-preserving subsequences.
- `Optional`: an option type.

Design decisions:

- Whitespace is the ECMAScript WhiteSpace and LineTerminator set.
- Label order is SQLite's BINARY collation, code point by code point.
- The environment map is an ordered association list with distinct names,
  which matches the insertion order of a JavaScript object with string keys.
- A parse that JavaScript reports as NaN is `None`, and such an id matches no
  row.
- The generator does no XML escaping. For that reason, statements such as
  "the text contains a `WorkingDirectory` key exactly when a directory is
  given" are proved on the entry list that the text serialises, not on
  substrings of the text.

## Model

| member | source | states |
|---|---|---|
| Text.Trim | src/app/api/services/route.ts:21-22 | `trim()`: the result is empty exactly when the input is all whitespace; otherwise it starts and ends with non-space; it is the input with only whitespace cut from both ends |
| Text.TrimIdempotent | src/app/api/labels/route.ts:21-28 | a trimmed label is unchanged by trimming it again, so stored labels stay trimmed |
| Text.Lower | src/app/page.tsx:73 | lowering keeps the length and lowers each ASCII capital by 32, leaving other characters alone |
| Text.LowerIdempotent | src/app/page.tsx:73 | lowering twice is lowering once |
| Text.ContainsIffOccurs | src/app/page.tsx:73 | `includes` holds exactly when the needle occurs at some index of the haystack |
| Delimited.Split | src/app/api/services/route.ts:17 | `split` on one character gives at least one piece, and no piece contains the separator |
| Delimited.JoinSplit | src/app/api/services/route.ts:17 | joining the pieces of a split with the separator gives back the input |
| Delimited.SplitJoin | src/components/PlistGenerator.tsx:85 | splitting a join of separator-free pieces gives back the pieces |
| Delimited.SplitCount | src/app/api/services/route.ts:17 | a split has one more piece than the input has separators |
| Delimited.SplitFirst | src/components/PlistGenerator.tsx:85 | the first piece is the text before the first separator; the remaining pieces are the split of the rest |
| Tokens.Words | src/app/api/services/route.ts:22 | the tokens of `trim().split(/\s+/)` are non-empty and contain no whitespace |
| Tokens.WordsEmptyIffBlank | src/app/api/services/route.ts:21-22 | a line has no tokens exactly when it is blank |
| Tokens.WordsOfJoin | src/app/api/services/route.ts:26 | tokenising a space-join of tokens gives back those tokens |
| Tokens.BlankThenWords | src/app/api/services/route.ts:21-22 | whitespace of any kind and length in front of a line does not change its tokens |
| Tokens.WordThenBlank | src/app/api/services/route.ts:22 | a token followed by one or more whitespace characters of any kind is the first token, and the rest tokenises on its own |
| Tokens.WordsOfSpaced | src/app/api/services/route.ts:21-22 | tokens separated by non-empty runs of any whitespace (tabs, several spaces), with any whitespace around them, tokenise back to exactly those tokens |
| Tokens.NormalizedIsJoinOfWords | src/app/api/services/route.ts:26 | a string with no leading, trailing or repeated whitespace, where every separator is one space, is the space-join of its own tokens |
| Tokens.JoinNormalized | src/app/api/services/route.ts:26 | a space-join of one or more tokens has no leading, trailing or repeated whitespace |
| ServiceList.ParseLines | src/app/api/services/route.ts:18-35 | there are never more records than lines |
| ServiceList.ParseLine | src/app/api/services/route.ts:20-23 | a line yields no record exactly when it has fewer than three tokens, blank lines included |
| ServiceList.PidOf | src/app/api/services/route.ts:24 | the pid shown is never a dash; any other first token is shown as it is |
| ServiceList.ParseLineFields | src/app/api/services/route.ts:22-26 | pid is `"Not Running"` exactly when the first token is `-`, else that token; status is the second token; the label's tokens are tokens 3..n in order, and the label is normalised |
| ServiceList.NotRunningIsNoToken | src/app/api/services/route.ts:24 | `"Not Running"` contains a space, so it can never be a pid token read from the output |
| ServiceList.ParseLinesAppend | src/app/api/services/route.ts:18-35 | records of concatenated line lists are the concatenated records: source-line order is kept |
| ServiceList.HeaderDiscarded | src/app/api/services/route.ts:17 | whatever the first line says, the records come from the following lines alone |
| ServiceList.HeaderOnly | src/app/api/services/route.ts:17 | output without a newline yields no records |
| ServiceList.Parse | src/app/api/services/route.ts:17-35 | there are at most as many records as non-header lines (newlines in the output) |
| ServiceList.ParsedRecordWellFormed | src/app/api/services/route.ts:22-26 | every record has a pid that is "Not Running" or a single token other than `-`, a single-token status, and a non-empty normalised label |
| ServiceList.ParseFormatLine | src/app/api/services/route.ts:20-33 | printing a well-formed record as a line and parsing it gives the record back |
| ServiceList.ParseFormat | src/app/api/services/route.ts:17-35 | parsing a header and then one printed line per well-formed record gives back exactly those records |
| ServiceList.ParseLineOfWords | src/app/api/services/route.ts:20-33 | a line whose tokens are a pid, a status and one or more further tokens parses to that pid (mapped), that status and the further tokens joined by spaces |
| ServiceList.FromTokensOf | src/app/api/services/route.ts:23-26 | three or more tokens make a record of the first (mapped), the second, and the rest joined by single spaces |
| ServiceList.ParseSpacedLine | src/app/api/services/route.ts:20-33 | a row parses into its columns whatever whitespace separates and surrounds them |
| ServiceList.TabSeparatedRow | src/app/api/services/route.ts:20-33 | a `pid TAB status TAB label` row, as launchctl prints it, parses into exactly those three columns |
| ServiceList.PidRoundTrip | src/app/api/services/route.ts:24 | the `-` mapping is undone by printing `"Not Running"` as `-`, for every pid other than a literal `-` |
| ServiceList.ParseFormatLines | src/app/api/services/route.ts:18-35 | parsing the printed lines of well-formed records gives back exactly those records, in order |
| Dashboard.ToggleLabel | src/app/page.tsx:55-63 | toggling flips the membership of the keyword and leaves every other keyword as it was |
| Dashboard.ToggleTwice | src/app/page.tsx:55-63 | toggling the same keyword twice restores the selection |
| Dashboard.ClearFilters | src/app/page.tsx:65-67 | clearing leaves no keyword selected |
| Dashboard.ClearShowsAll | src/app/page.tsx:65-70 | after clearing the selection, the filter shows every service |
| Dashboard.FilteredServices | src/app/page.tsx:69-75 | an empty selection shows the whole list; the filter never lengthens the list |
| Dashboard.Keep | src/app/page.tsx:71-75 | the filtered list is never longer than the list |
| Dashboard.Matches | src/app/page.tsx:72-73 | a service matches when its lowered label contains some selected keyword, lowered (a predicate; its meaning is stated by MatchesIffOccurs) |
| Dashboard.KeepMembers | src/app/page.tsx:71-75 | with a selection, a service is shown exactly when it is in the list and its lowered label contains some lowered keyword |
| Dashboard.KeepIsSubseq | src/app/page.tsx:71-75 | the filtered list is an order-preserving subsequence of the list |
| Dashboard.KeepAppend | src/app/page.tsx:71-75 | filtering distributes over concatenation |
| Dashboard.KeepMonotone | src/app/page.tsx:71-75 | a selection matching more services keeps a supersequence |
| Dashboard.AddKeywordMonotone | src/app/page.tsx:71-75 | adding a keyword to a non-empty selection never hides a shown service |
| Dashboard.MatchesIffOccurs | src/app/page.tsx:72-73 | a match means that some keyword's lowered text occurs at some index of the lowered label |
| Dashboard.BadgeOf | src/app/page.tsx:173-178 | the badge reads Stopped exactly when the pid is "Not Running" |
| Dashboard.BadgeOfParsedLine | src/app/page.tsx:173-178 | a parsed service shows "Stopped" exactly when its launchctl pid column was `-`, and "Running" otherwise |
| PlistGenerator.AddArgument | src/components/PlistGenerator.tsx:41-49 | a non-blank input is appended trimmed at the end and the box is cleared; a blank one changes nothing |
| PlistGenerator.DropIndex | src/components/PlistGenerator.tsx:54 | an in-range index removes exactly that element and keeps the others in order; an out-of-range index changes nothing |
| PlistGenerator.RemoveArgument | src/components/PlistGenerator.tsx:51-56 | only the argument at the index goes; out of range, the form is unchanged |
| PlistGenerator.AddThenRemoveArgument | src/components/PlistGenerator.tsx:41-56 | removing the argument just added restores the arguments |
| PlistGenerator.Put | src/components/PlistGenerator.tsx:62-65 | after a put, the name maps to the value and every other name to what it did before; a new name is appended at the end; an existing name keeps its position and every entry keeps its name and place; names stay distinct |
| PlistGenerator.Delete | src/components/PlistGenerator.tsx:74-75 | after a delete, the name is absent and every other name keeps its value; order is kept; names stay distinct |
| PlistGenerator.AddEnvironmentVariable | src/components/PlistGenerator.tsx:58-70 | with both boxes non-blank, the trimmed key maps to the trimmed value, other keys are untouched, a new key goes last and an existing one stays in place, and the boxes clear; otherwise nothing changes |
| PlistGenerator.RemoveEnvironmentVariable | src/components/PlistGenerator.tsx:72-81 | the key is gone, every other key is as it was, the remaining variables keep their order, and nothing else in the form changes |
| PlistGenerator.DeleteAfterPut | src/components/PlistGenerator.tsx:58-81 | setting a variable and then removing it is the same as only removing it |
| PlistGenerator.DeleteAbsent | src/components/PlistGenerator.tsx:72-81 | removing a variable that is not there changes nothing |
| PlistGenerator.LogName | src/components/PlistGenerator.tsx:85-86 | the log name never contains a dot |
| PlistGenerator.LogNameOfThreeSegments | src/components/PlistGenerator.tsx:85-86 | for a label with three or more segments, the log name is the second segment |
| PlistGenerator.LogNameOfTwoSegments | src/components/PlistGenerator.tsx:85-86 | for a two-segment label, the log name is the first segment, or "service" when that segment is empty |
| PlistGenerator.LogNameOfOneSegment | src/components/PlistGenerator.tsx:85-86 | for a dot-free label, the log name is the label, or "service" when the label is empty |
| PlistGenerator.StandardOutPath | src/components/PlistGenerator.tsx:88 | a typed path is used as it is; otherwise the path is `/tmp/`, a dot-free log name, then `.log` |
| PlistGenerator.StandardErrorPath | src/components/PlistGenerator.tsx:89 | a typed path is used as it is; otherwise the path is `/tmp/`, a dot-free log name, then `.error.log` |
| PlistGenerator.GeneratePlistContent | src/components/PlistGenerator.tsx:91-119 | the text starts with the XML declaration, DOCTYPE and `<plist><dict>` opening, and ends with the closing `</dict></plist>` |
| PlistGenerator.GenerateIsDocument | src/components/PlistGenerator.tsx:91-118 | the generated text is exactly the prolog, the keyed entries rendered in order, and the epilog |
| PlistGenerator.OptionalKeys | src/components/PlistGenerator.tsx:101-116 | `WorkingDirectory` is present exactly when a directory was given, and `EnvironmentVariables` exactly when some variable was |
| PlistGenerator.LabelAndProgram | src/components/PlistGenerator.tsx:95-100 | `Label` holds the label; `ProgramArguments` lists the program first, then the arguments in order |
| PlistGenerator.FlagsAndLogPaths | src/components/PlistGenerator.tsx:88-111 | `RunAtLoad` and `KeepAlive` hold their booleans; the log paths are the typed ones, or `/tmp/<log name>.log` and `/tmp/<log name>.error.log` when left empty |
| PlistGenerator.PlistFilename | src/components/PlistGenerator.tsx:128 | the file name is the label followed by `.plist` |
| PlistGenerator.InstallCommand | src/components/PlistGenerator.tsx:135-137 | the command is exactly three parts: moving `~/Downloads/<label>.plist` into `~/Library/LaunchAgents/`, `launchctl load` of the moved file, and `launchctl start <label>` |
| PlistGenerator.InstallCommandDeterminesLabel | src/components/PlistGenerator.tsx:135-137 | two forms have the same install command only when their labels agree |
| PlistGenerator.InitialFormInvalid | src/components/PlistGenerator.tsx:23-33 | the form as it opens cannot yet generate |
| PlistGenerator.IsValid | src/components/PlistGenerator.tsx:149 | the form can generate when label and program are both non-empty (a predicate; InitialFormInvalid and Apply state what changes it) |
| PlistGenerator.Apply | src/components/PlistGenerator.tsx:41-81 | each form event keeps variable names distinct, and only typing the label or the program can change whether the form is valid |
| PlistGenerator.EditsKeepUniqueNames | src/components/PlistGenerator.tsx:58-81 | any sequence of events keeps variable names distinct |
| PlistGenerator.ReachableFormsHaveUniqueNames | src/components/PlistGenerator.tsx:23-81 | every form reachable from the opening one has distinct variable names, so removing a key removes its only entry |
| LabelStore.EmptyTableValid | src/lib/database.ts:10-16 | a fresh table is empty and satisfies the schema invariant |
| LabelStore.LeTotal | src/lib/database.ts:26 | any two labels are comparable under BINARY order |
| LabelStore.LeTrans | src/lib/database.ts:26 | BINARY order is transitive |
| LabelStore.LeAntisym | src/lib/database.ts:26 | labels ordered both ways are equal |
| LabelStore.GetAllLabels | src/lib/database.ts:25-28 | the listing is sorted by label and is a permutation of the table's rows |
| LabelStore.SortByLabel | src/lib/database.ts:26 | `ORDER BY label`: the result is sorted by label and is a permutation of the rows |
| LabelStore.ListingIsTheSortedTable | src/lib/database.ts:25-28 | any label-sorted permutation of a valid table's rows is the listing, so the listing is unique |
| LabelStore.SortedListingUnique | src/lib/database.ts:25-28 | two label-sorted arrangements of the same rows whose labels identify them are equal |
| LabelStore.AddLabel | src/lib/database.ts:30-36 | the insert is refused exactly when the label exists; otherwise it returns the one new row with the next id, appended, and no other row changes; validity is kept |
| LabelStore.AddLabelFreshId | src/lib/database.ts:12 | a new id exceeds every id in the table |
| LabelStore.AddTwice | src/lib/database.ts:13 | inserting the same label twice violates UNIQUE |
| LabelStore.AddedRowListed | src/lib/database.ts:25-36 | a just-inserted row appears in the listing |
| LabelStore.RemoveLabel | src/lib/database.ts:38-42 | reports true exactly when a row with the id existed; afterwards no such row exists, every other row remains in order, and validity is kept |
| LabelStore.RemoveLabelByName | src/lib/database.ts:44-48 | reports true exactly when a row with the label existed; only rows with that label go |
| LabelStore.AddThenRemove | src/lib/database.ts:30-42 | deleting a just-inserted row by its id restores the rows, and the id counter stays advanced |
| LabelStore.AddThenRemoveByName | src/lib/database.ts:30-48 | deleting a just-inserted row by its label restores the rows |
| LabelStore.FilterShrinks | src/lib/database.ts:41 | `changes > 0` holds exactly when some row met the DELETE condition |
| LabelStore.Filter | src/lib/database.ts:39-40 | the rows left by a DELETE are an order-preserving subsequence holding exactly the rows not meeting the condition |
| LabelStore.RemovalKeepsValid | src/lib/database.ts:38-48 | keeping any order-preserving subsequence of a valid table's rows, with the id counter unchanged, keeps the table valid |
| LabelStore.ValidLabelsIdentify | src/lib/database.ts:13 | in a valid table, a label identifies its row |
| LabelsApi.ParseIntDecimal | src/app/api/labels/route.ts:62 | `parseInt` reads back a printed id, also with trailing non-digit text |
| LabelsApi.ParseIntNegative | src/app/api/labels/route.ts:62 | a leading minus negates the number |
| LabelsApi.ParseIntNotANumber | src/app/api/labels/route.ts:62 | text that starts, after whitespace, with neither a sign nor a digit is NaN |
| LabelsApi.DecimalStringValue | src/app/api/labels/route.ts:62 | the digits of a printed number denote that number |
| LabelsApi.ParseInt | src/app/api/labels/route.ts:62 | a number is read only from text that is not blank, and a negative one only after a leading minus |
| LabelsApi.Get | src/app/api/labels/route.ts:4-7 | GET answers 200 with every row, sorted by label |
| LabelsApi.Post | src/app/api/labels/route.ts:17-45 | an unreadable body is 500; a non-string or blank label is 400; an existing trimmed label is 409; otherwise it is 201 with the new row holding the trimmed label; only a 201 changes the table |
| LabelsApi.Delete | src/app/api/labels/route.ts:47-74 | 400 exactly when neither parameter is truthy; 200 exactly when a row was deleted, which happens exactly when the parsed id, or failing an id the label, names a row, and then exactly the rows with another id (or another label) remain, in order; otherwise 404 "Label not found" with the table unchanged |
| LabelsApi.IdTakesPrecedence | src/app/api/labels/route.ts:61-65 | given an id, the label parameter is ignored |
| LabelsApi.StatusCodes | src/app/api/labels/route.ts:4-82 | every response is 200, 201, 400, 404, 409 or 500 |
| LabelsApi.FailureChangesNothing | src/app/api/labels/route.ts:17-82 | a response of 400 or above leaves the table as it was |
| LabelsApi.Handle | src/app/api/labels/route.ts:4-82 | a GET never changes the table; a request never lowers the next id and adds at most one row |
| LabelsApi.Serve | src/app/api/labels/route.ts:4-82 | after any requests the next id has not decreased and the table has grown by at most one row per request |
| LabelsApi.PostKeepsInvariant | src/app/api/labels/route.ts:21-28 | a POST keeps the table valid and every stored label non-empty and trimmed |
| LabelsApi.DeleteKeepsInvariant | src/app/api/labels/route.ts:60-65 | a DELETE keeps the table valid and every stored label non-empty and trimmed |
| LabelsApi.SubseqKeepsInvariant | src/app/api/labels/route.ts:60-65 | deleting rows, in whatever way, keeps the invariant and the id counter |
| LabelsApi.HandleKeepsInvariant | src/app/api/labels/route.ts:4-82 | any single request keeps the invariant, and the next id never decreases |
| LabelsApi.InitialTableInvariant | src/lib/database.ts:10-16 | the freshly created table satisfies the invariant |
| LabelsApi.ServeKeepsInvariant | src/app/api/labels/route.ts:4-82 | any sequence of requests keeps the invariant, and the next id never decreases |
| LabelsApi.PostThenDeleteById | src/app/api/labels/route.ts:28-68 | deleting by the printed id of a just-posted label answers 200 and restores the rows |
| LabelsApi.PostThenDeleteByLabel | src/app/api/labels/route.ts:28-68 | deleting by a just-posted label answers 200 and restores the rows |
| LabelsApi.PostTwice | src/app/api/labels/route.ts:28-38 | posting the same label twice gives 409 "Label already exists" |
| LabelsApi.PostThenGet | src/app/api/labels/route.ts:6-29 | a posted row shows up in the next listing |

## Left out

- Running `launchctl list` and the 500 when it fails. The parser takes the output as a string.
- The `services/plist` route, which reads files, runs `launchctl print` and runs a shell pipeline. It is I/O with no stable contract. `ServicePlistHover.tsx` and the labels page are also left out: they are UI and fetch calls, and the page only mirrors the server.
- The React rendering, the Blob download and the clipboard copy in the generator. Only the file name and the command text are modelled.
- The SQLite engine, the database handle and the `created_at` timestamp. The table is a row sequence with a next-id counter.
- The 500 answers for failures inside SQLite on GET, POST and DELETE (disk errors, a full database). The model's store operations do not fail.
- Text.Lower: lowers ASCII only. Full Unicode case mapping is not modelled.
- Text.IsSpace: the whitespace set is the fixed list of ECMAScript WhiteSpace and LineTerminator code points of current Unicode. Space separators added by later Unicode versions are not included.
- PlistGenerator.Put: key order ignores JavaScript's rule that integer-like keys are enumerated first in ascending order. Such keys keep insertion order here.
- PlistGenerator.GenerateIsDocument: XML escaping and well-formedness are not claimed, because the generator does none. A label containing `</string>` gives text that is not a plist.
- LabelsApi.ParseInt: precision above 2^53 and the sign of a negative zero are not modelled. Ids are unbounded integers.
- LabelsApi.Post: a body of JSON `null`, which fails destructuring, is folded into the unreadable case (500).
- LabelStore.Le: compares code points. SQLite compares UTF-8 bytes, and the two orders agree for valid Unicode text.
- The dashboard's fetches and the labels page's list bookkeeping.
