# travis-size-report: the build comparison and report core in Dafny

travis-size-report compares the files of a current build with the file list
recorded for a previous build. It reports which files grew, shrank, appeared,
disappeared or were renamed, as a markdown comment on a pull request. This
project models the logic of `src/index.ts` and proves what it guarantees:

- **`getChanges`** (`BuildDiff`, `BuildDiffFacts`):
  - Previous and current `FileData` records are matched by path into deleted, new and changed entries.
  - An optional resolver then pairs deleted entries with new ones as renames. It is asked about each originally deleted entry, in order, against the new paths not yet claimed.
  - The code's three loops are methods with loop invariants. Each method is proved equal to a specification function: `InitialDeleted`, `InitialChanged`, `InitialNew` and `RenamePass`, combined in `Changes`.
  - The properties of that specification are proved as lemmas.
- **`outputChanges`, `output` and `collapsedOutput`** (`ReportSort`, `Report`):
  - Each changed pair becomes a row, which goes into one of five buckets by its gzip byte delta (thresholds 100, 0 and -100).
  - The buckets are sorted with the stable sort of `Array.prototype.sort`, using `ascendingSizeSort` or `descendingSizeSort`.
  - The rows are appended as markdown lines to two module-level buffers. The buffers are the fields of the class `ReportBuffers`.
- **The string helpers** (`JsStrings`, `ChunkNames`):
  - JavaScript `indexOf`, `lastIndexOf`, `substring` (which clamps its arguments and swaps them when start > end) and `trimRight`;
  - `escapeTilde`;
  - the display name that `pathsToInfoArray` derives from a path.
- **The hidden-data codec** (`HiddenData`):
  - `getHiddenData` extracts the JSON between the `botsData` marker and the next `-->`.
  - `updateCommentId` rewrites the issue body with a fresh hidden block. The block records the id of the last size comment.

Choices the model makes:

- **Object identity.** The source tracks entries by object identity: `deletedItems.indexOf(deletedItem)`, the `matchedNewEntries` Set and the `changedItems` Map keys. Inside `GetChanges`, previous entries are referred to by their position in `previousBuildInfo`, and matched current entries by their position in `buildInfo`. The deleted references stay strictly increasing, so `indexOf` finds exactly the visited entry. No path-uniqueness assumption is needed.
- **Insertion order.** `changedItems` is a sequence of pairs in the Map's insertion order. Each key is set once: every previous entry is visited once, and a renamed entry was never matched by path.
- **Empty resolver answer.** An empty answer from the resolver counts as "no rename", because `!result` is true for `""`.
- **Strict mode.** `build/index.js` runs in strict mode. Assigning `lastCommentId` onto a `sizeReport` that is missing, `null` or a primitive therefore throws a `TypeError`, which is `Failure(TypeError)` here.

Behaviour of the code worth knowing:

- **Display name.** A path without `-` is displayed as everything up to and including its last `/`, because `substring` swaps its bounds when the end is below the start (`DisplayNameCases`).

## Model

| member | source | states |
|---|---|---|
| JsStrings.IndexOf | src/index.ts:63 | -1 exactly when the pattern does not occur; otherwise the position of the first occurrence |
| JsStrings.LastIndexOf | src/index.ts:45-46 | -1 or the position of the last occurrence of the character; no occurrence after it |
| JsStrings.Substring | src/index.ts:48 | `substring` is the slice between its bounds in either order (they are swapped when start > end); a bound below 0 acts as 0 and one past the end as the length |
| JsStrings.SubstringFrom | src/index.ts:72 | `substring(start)` is the suffix from `start`, empty past the end |
| JsStrings.TrimEnd | src/index.ts:86 | `trimRight` keeps a prefix that does not end in whitespace and removes only whitespace |
| JsStrings.IndexOfElem | src/index.ts:218-219 | array `indexOf`: -1 exactly when absent, else the first position holding the element |
| JsStrings.RemoveAt | src/index.ts:218-223 | `splice(i, 1)` shortens by one, keeping the elements before `i` and shifting the rest down |
| JsStrings.IndexOfAfterSeparator | src/index.ts:73 | a search past a separator absent from the pattern finds the occurrence after it, shifted by the prefix |
| ChunkNames.EscapeTilde | src/index.ts:35-37 | the length grows by the number of tildes, and every `~` of the result follows a backslash |
| ChunkNames.EscapeTildeInvertible | src/index.ts:35-37 | un-escaping recovers the input, so nothing but tildes is changed |
| ChunkNames.EscapeTildeIdentity | src/index.ts:35-37 | a string without `~` is unchanged |
| ChunkNames.DisplayName | src/index.ts:45-48 | every `~` of the name is escaped and the name is at most twice the path's length; its exact shape is stated by `DisplayNameCases` and `StemOfHashedName` |
| ChunkNames.DisplayNameCases | src/index.ts:45-48 | the name is the text between the last `/` and the last `-`; with no `-`, the prefix through the last `/`; with `-` before the last `/`, the text from `-` through `/` |
| ChunkNames.StemOfHashedName | src/index.ts:45-48 | for `dir/stem-hash` with no `/` or `-` in the hash, the name is the escaped stem |
| HiddenData.Lookup | src/index.ts:88 | property read: none exactly when no field has the key, else the value of a field with that key |
| HiddenData.Assign | src/index.ts:88 | property write: the key reads back the value and other keys read as before; an existing key keeps its position and every other field stays in place, a new key is appended after all others |
| HiddenData.GetHiddenData | src/index.ts:62-77 | with no `botsData` the result is `{sizeReport: {}}`; otherwise it succeeds exactly when parsing the extracted slice succeeds, with the parsed value, and fails with a syntax error naming the slice otherwise |
| HiddenData.HiddenJsonText | src/index.ts:63-75 | there is a slice exactly when the body holds the marker; where it starts and ends is stated by `HiddenJsonTextBounds` |
| HiddenData.HiddenJsonTextBounds | src/index.ts:69-75 | the slice starts right after the first marker; it runs to the first `-->` after it, or is the marker's last character when there is none |
| HiddenData.HiddenJsonTextOf | src/index.ts:63-75 | with the marker found, the slice runs from the end of the marker for as far as the `-->` search in the remaining text says |
| HiddenData.SetLastCommentId | src/index.ts:88 | succeeds exactly when `sizeReport` is an object or array; on an object it then reads back the id, every other property of the hidden data and of `sizeReport` keeps its value and no property is added to the hidden data; on an array nothing visible changes |
| HiddenData.KeptText | src/index.ts:82-86 | the kept text is the body before the first `<!--botsData` (or all of it) with exactly its trailing whitespace removed |
| HiddenData.UpdateCommentId | src/index.ts:79-94 | fails exactly when setting the id throws; otherwise the body is the kept text, the opening, the JSON of the updated data and the closing warning |
| HiddenData.HiddenBlockRoundTrip | src/index.ts:62-94 | extracting from a written block yields the written JSON padded by newlines |
| HiddenData.CommentIdRoundTrip | src/index.ts:62-94 | when the JSON written for the updated data holds no `-->` and parses back, reading the rewritten body gives the updated hidden data, whose last comment id is the new one |
| BuildDiff.Paths | src/index.ts:207 | `map(i => i.path)` keeps length and positions |
| BuildDiff.FindByPath | src/index.ts:184 | `find`/`findIndex` by path: none exactly when no entry has the path, else the first such position |
| BuildDiff.MatchStateMissing | src/index.ts:184-188 | visiting a previous entry whose path the current build lacks appends its reference to the deleted ones and changes nothing else |
| BuildDiff.MatchStateFound | src/index.ts:184-193 | visiting a previous entry whose path is found records the match, and appends the pair exactly when the gzip sizes differ |
| BuildDiff.MatchPrevious | src/index.ts:183-194 | the first loop's deleted references are increasing and point at `InitialDeleted`; its pairs are `InitialChanged`; its matched set is `MatchedEntries` |
| BuildDiff.CollectNew | src/index.ts:196-202 | the second loop collects the unmatched current entries in order |
| BuildDiff.PathsRemoveAt | src/index.ts:218-223 | removing a new entry and its path at the same position keeps `newPaths` equal to the paths of `newItems` |
| BuildDiff.RemoveNextRef | src/index.ts:219 | `deletedItems.indexOf(deletedItem)` finds the visited entry right after the kept ones, and removing it keeps references increasing |
| BuildDiff.IncreasingRemoveAt | src/index.ts:219 | taking one reference out of `deletedItems` keeps the references increasing |
| BuildDiff.RenameStepKept | src/index.ts:210-211 | in the specification, an undefined or empty answer moves the entry to the kept deleted ones |
| BuildDiff.RenameStepPaired | src/index.ts:215-223 | in the specification, an accepted answer pairs the entry with the first new entry of that path and removes that entry from the new ones |
| BuildDiff.RenameStateKept | src/index.ts:210-211 | an undefined or empty answer keeps the entry deleted and moves on |
| BuildDiff.RenameStateFailed | src/index.ts:212-214 | an answer not in the live `newPaths` makes the whole pass fail with that path |
| BuildDiff.RenameStatePaired | src/index.ts:218-223 | an accepted answer takes exactly that entry out of `deletedItems`, the path out of `newPaths` and the first entry of that path out of `newItems`, and pairs the two entries |
| BuildDiff.RenameStateDone | src/index.ts:209-227 | after the last entry, the loop state is the outcome of the whole rename pass |
| BuildDiff.ResolveRenames | src/index.ts:204-225 | the rename loop returns or throws exactly what `RenamePass` gives for the snapshot of deleted entries |
| BuildDiff.GetChanges | src/index.ts:174-228 | `getChanges` returns or throws exactly `Changes`; without a resolver the first two loops' lists are returned as they are |
| BuildDiffFacts.InitialDeletedCount | src/index.ts:183-188 | a previous entry is deleted as often as it occurs in the previous build exactly when no current entry has its path |
| BuildDiffFacts.InitialChangedMembers | src/index.ts:184-193 | a changed pair is a previous entry with the first current entry of its path, exactly when their gzip sizes differ |
| BuildDiffFacts.MatchedEntriesMembers | src/index.ts:184-190 | a current position is matched exactly when it holds the first entry of a path some previous entry has |
| BuildDiffFacts.UnmatchedMembers | src/index.ts:199-202 | the collected entries are exactly those at unmatched positions |
| BuildDiffFacts.InitialNewMembers | src/index.ts:196-202 | in a path-unique current build, the new entries are exactly those whose path no previous entry has |
| BuildDiffFacts.DisjointMatching | src/index.ts:183-194 | with no shared path, every previous entry is deleted, nothing is changed and nothing matched |
| BuildDiffFacts.DisjointBuilds | src/index.ts:174-228 | with no shared path and no resolver, all previous entries are deleted and all current ones are new |
| BuildDiffFacts.IdenticalBuilds | src/index.ts:174-228 | a path-unique build compared with itself gives no change, with or without a resolver |
| BuildDiffFacts.IdenticalNothingDeleted | src/index.ts:183-188 | every entry of a build finds its own path in the same build, so nothing is deleted |
| BuildDiffFacts.IdenticalNothingChanged | src/index.ts:189-193 | in a path-unique build each entry is matched with itself, so no gzip size differs |
| BuildDiffFacts.IdenticalNothingNew | src/index.ts:196-202 | in a path-unique build every entry is matched, so nothing is new |
| BuildDiffFacts.RenamePassConserves | src/index.ts:209-224 | a successful pass neither loses nor invents entries: deleted plus renamed-from is the snapshot, new plus renamed-to is the new list |
| BuildDiffFacts.WellBehavedResolverSucceeds | src/index.ts:210-214 | a resolver that only answers with offered paths, or nothing, never makes the pass fail |
| BuildDiffFacts.RenameFailureNamesPath | src/index.ts:211-213 | a failure always names a non-empty path |
| BuildDiffFacts.SilentResolverKeepsAll | src/index.ts:209-211 | a resolver that never answers leaves deleted and new entries as they are |
| BuildDiffFacts.SilentResolverChangesNothing | src/index.ts:205-225 | with such a resolver, `getChanges` returns what it returns without one |
| BuildDiffFacts.ClaimedTwiceFails | src/index.ts:212-218 | two deleted entries naming the same single new path: the second answer is off the live list and the pass fails |
| BuildDiffFacts.HashChangeWithoutResolver | src/index.ts:174-228 | `app-aaa.js` → `app-bbb.js` without a resolver: one deleted, one new, nothing changed |
| BuildDiffFacts.HashChangeWithResolver | src/index.ts:204-225 | the same with a resolver mapping one to the other: one changed pair, nothing deleted or new |
| ReportSort.ChunkOf | src/index.ts:260-273 | a row's delta is new minus old gzip size, its status grew/shrank/`:o:` exactly when the size rose/fell/stayed, with the new entry's name and formatted sizes |
| ReportSort.Chunks | src/index.ts:258 | one row per changed pair, in `changedItems` order |
| ReportSort.SortBy | src/index.ts:293-297 | sorting keeps the number of rows; `SortByPermutes`, `SortBySorted` and `SortByStable` state that it is a stable sort |
| ReportSort.BucketOf | src/index.ts:275-290 | increased above 100, minor increase in (0, 100], decreased below -100, minor decrease in [-100, 0), renamed at 0 |
| ReportSort.SortByPermutes | src/index.ts:293-297 | sorting is a permutation of the bucket |
| ReportSort.SortBySorted | src/index.ts:32-33 | sorting orders rows by delta, ascending or descending as the comparator says |
| ReportSort.SortByStable | src/index.ts:293-297 | sorting is stable: rows with equal delta keep their order |
| ReportSort.SortBySortedIdentity | src/index.ts:293-297 | rows already in order are left unchanged |
| ReportSort.InsertSorted | src/index.ts:32-33 | inserting a row into sorted rows keeps them sorted |
| Report.InBucketCountAt | src/index.ts:275-290 | a row is in a bucket exactly as often as it occurs, when its delta selects that bucket |
| Report.BucketsPartition | src/index.ts:275-290 | the five buckets together hold every row exactly once |
| Report.MajorMinorPartition | src/index.ts:299-300 | the major and minor lists together are a permutation of all changed rows |
| Report.Major | src/index.ts:299 | the major rows are as many as the rows of the increased and decreased buckets; `MajorOrder` states their order and `MajorMinorPartition` that no row is lost |
| Report.Minor | src/index.ts:300 | the minor rows are as many as the rows of the unchanged, minor-increase and minor-decrease buckets; `MinorOrder` states their order |
| Report.SortedBucket | src/index.ts:293-297 | a sorted bucket keeps its length, is ordered and holds only that bucket's rows |
| Report.MajorOrder | src/index.ts:293-299 | the major list is the increases over 100 by descending delta, then the decreases over 100 by ascending delta |
| Report.MinorOrder | src/index.ts:287-300 | the minor list is the unchanged-size rows in pair order, then minor increases descending, then minor decreases ascending |
| Report.AppendedConcat | src/index.ts:230-236 | appending two runs of lines equals appending their concatenation |
| Report.AppendedLength | src/index.ts:230-236 | each appended line adds its length plus one newline |
| Report.OutputShape | src/index.ts:238-330 | with no change, one "No changes." line and nothing collapsed; otherwise 9 header lines plus one line per major row, new and removed entry, 2 collapsed headers plus one per minor row, and every pair in one of the two lists |
| Report.OutputRows | src/index.ts:302-305 | the lines after the first three headers are the bold major rows in order; the collapsed rows follow their two headers |
| Report.ReportBuffers.constructor | src/index.ts:22-23 | both buffers start empty |
| Report.ReportBuffers.Output | src/index.ts:230-232 | `output` appends a newline and the text to the main buffer and leaves the collapsed one |
| Report.ReportBuffers.CollapsedOutput | src/index.ts:234-236 | `collapsedOutput` appends to the collapsed buffer only |
| Report.ReportBuffers.OutputAll | src/index.ts:302-321 | the `for…of` loops calling `output` append each line in order to the main buffer only |
| Report.ReportBuffers.CollapsedOutputAll | src/index.ts:323-329 | the `for…of` loops calling `collapsedOutput` append each line in order to the collapsed buffer only |
| Report.ReportBuffers.OutputChanges | src/index.ts:238-330 | the buffers only grow, by exactly the lines `MainLines` and `CollapsedLines` |
| Report.Bucketize | src/index.ts:258-291 | the bucketing loop pushes each row, in pair order, into the bucket its delta selects |
| Report.RowOfPair | src/index.ts:260-289 | the row the loop builds is the pair's row, once the status of an unchanged size is overwritten with `:o:` |
| Report.MajorAndMinor | src/index.ts:252-300 | bucketing, sorting and joining give exactly the major and the minor rows |
| Report.ReportBuffers.OutputTable | src/index.ts:307-320 | a table writes its header lines and then its rows to the main buffer only |

## Left out

- GitHub REST calls (`getGitHubIssue`, `updateGitHubIssue`, `commentGitHub`, `deleteCommentGitHub`) and `fetchPreviousBuildInfo`: network I/O.
- `gzipSize.file`, `stat` and the `Promise.all` fan-out in `pathsToInfoArray`: file I/O and concurrency. Only the name derivation is modelled.
- `prettyBytes`: a formatting library. It is the parameter `ByteFormat` (plain and signed).
- `JSON.parse` and `JSON.stringify`: they are the parameters `Parse` and `Stringify`. A JSON value is a small `Json` datatype whose numbers are integers. Object keys keep insertion order, so JavaScript's ordering of integer-like keys is not modelled.
- `buildFindRenamedFunc` and `./find-renamed`: the resolver is a parameter. Its `await` is treated as a synchronous call.
- `sizeReport` orchestration: globbing, environment variables, console logging, the try/catch around the fetch and the sequence of HTTP steps. The de-duplication of current paths appears only as the `PathUnique` premise of the lemmas that need it.
- `src/sizecheck.ts`, `build/sizecheck.js` and `src/sizereport.ts`: CLI entry points, which are plumbing.
- Strings are sequences of code points, not UTF-16 code units. Indices differ from JavaScript's for characters outside the Basic Multilingual Plane.
- HiddenData.UpdateCommentId: returns the updated hidden data instead of writing `lastCommentId` into the caller's object, and does not model a `null` issue body or an undefined `commentId`.
- HiddenData.GetHiddenData: does not model a `null` issue body (GitHub's `body` of an issue with no description), on which `indexOf` throws a `TypeError`; the body is always a string here.
- Report.ReportBuffers.OutputChanges: the rows are immutable values. The source mutates `chunkData.changeEmoji` after creating the row, but that row sits in no other bucket, so nothing observes the change.
- BuildDiff.GetChanges: compares previous and current entries by position and not by object identity. Two equal records at different positions stay distinct, as two distinct objects do.
- BuildDiff.ResolveRenames: the resolver receives the current `newPaths` as a value. The source passes the live array, so a resolver that changed it or kept a reference to it would see effects the model does not capture; the resolver is assumed not to modify the list it is given.
