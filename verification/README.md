# CodeSensei: verified models of its core algorithms and protocols

Dafny models of the parts of CodeSensei where correctness is not obvious from
one function body, with proofs of what they promise. Each source function that
loops or updates state is a method proved against a specification function (or
against the property itself); the theorems are lemmas about the specifications,
over all inputs or all runs.

| files | what they model |
|---|---|
| Text, Chunks, Packing | lines and white space of texts, chunk records, greedy packing |
| SyntaxTree, AstChunker, AstTheorems, MergeTheorems | structural chunking of source files |
| TokenCap | splitting chunks over the embedding model's token cap |
| LineChunkers, Markdown, FileChunks, StoredChunks | line-based chunkers, the dispatcher, chunking and capping a file |
| UnifiedDiff, DiffHunks, DiffWindows, PatchContext, SnippetTheorems, Findings | diff line arithmetic, from patch text to findings |
| CloneCache | the cache of git clones |
| RepoStore, Lifecycle, LifecycleTheorems, LifecycleStages, SearchTheorems | the indexing lifecycle of a repository |
| JobStream, StreamTheorems, StreamOutcomes | live job progress over a socket |
| Retrieval | choosing chunks for a query |
| History, HistoryTheorems | the stored reviews, listing and pruning |
| EmbedLoop, IndexedRows | embedding a repository's chunks, reporting progress, storing the rows; from files to rows |

`dafny verify dfyconfig.toml` checks everything.

## What is assumed

- Text is a sequence of characters with `\n` as the only line terminator; a
  position stands for a byte, so decoding is the identity. Digits are ASCII.
- A tokenizer is any function from text to a number; the embedding provider,
  the git lookup and the clock are parameters.
- A parser returns trees whose named children lie in order inside their parent
  and do not overlap (`WellFormed`), with the file's non-white-space text inside
  the root (`TreeOf`).
- Patches follow the unified format of POSIX.1-2017, diff utility, "Diff -u or
  -U Output Format". For the theorems that compare with the new file
  (`DiffTo`), their hunks are those of a diff to that file.
- Each database transaction is one atomic step; in particular registration,
  which reads the existing row without a lock, is not interleaved with another
  transaction. An enqueue that raises has not enqueued, and a job is executed
  at most once. The embedder a pass uses is fixed from its embedding to its
  commit.
- The job queue stores a result after the job has returned, together with the
  status change; the channel delivers in order to whoever has subscribed.
- Clone directories are named after their source without collisions, and
  removing one succeeds. The calls of a run come one after the other on a
  strictly increasing clock.

## Where the code and its documentation part

The model follows the code. In each case a lemma shows the difference and, where
the code keeps a weaker promise, the exact condition under which it holds.

- `_split_chunk_recursive` halves "until each piece fits", but a single line
  over the cap is its own left half (`TokenCap.SingleLineFixedPoint`); it
  finishes exactly when no line is stuck (`TokenCap.SplitFinishesIff`,
  `TokenCap.CapAllFinishesIff`), and there is an input for which it does not
  (`TokenCap.CappingMayDiverge`). Python
  ends the endless recursion at its recursion limit; the model has a call depth
  as a parameter, and no statement depends on its value beyond being enough.
- The truncation of one long line bounds characters, not tokens: a line of at
  most 21000 characters over the cap is not cut at all
  (`TokenCap.ShortLineStaysOver`), and the cut works for all lines exactly for
  tokenizers under which all such lines fit
  (`TokenCap.TrimWorksIffShortLinesFit`).
- `usePatchContext` says that snippets are clipped at hunk boundaries and have
  at most 2 * context + 1 entries; it walks across hunks
  (`SnippetTheorems.SnippetCrossesHunks`, `SnippetTheorems.StaysInHunkIff`) and
  counts no removed lines (`SnippetTheorems.RemovedLinesExceed`,
  `SnippetTheorems.SnippetFitsIff`).
- `_extract_rhs_hunks` takes an added line starting with `++ b/` for a file
  header (`DiffHunks.SpoofedHeader`); a diff of several files is read exactly if
  and only if no such line comes ahead of a later range of another name
  (`DiffHunks.DiffExactIff`).
- `dispatch` undoes its registration only for errors it catches, and the worker
  records only `IndexError`; otherwise a row stays pending for good
  (`LifecycleTheorems.StrandedAtOnce`, `LifecycleTheorems.StrandedRunIff`,
  `LifecycleTheorems.StrandedForever`).
- `_delete_if_pristine` means to delete only rows that the request created, but
  a formerly ready or failed repository looks the same after registration: a
  rollback restores what was there exactly if the source was not registered
  before (`LifecycleTheorems.RollbackRestoresIff`,
  `LifecycleTheorems.RollbackRestoresStoreIff`).
- A search checks the embedder in one transaction and reads chunks in another;
  a pass under new settings can commit in between
  (`SearchTheorems.OvertakenSearch`, reached by `SearchTheorems.SearchUnderWay`).
  What it reads is embedded as its queries exactly under the condition of
  `SearchTheorems.SearchReadsAlikeIff`.
- The replay of a finished job reports success for an index job that crashed
  and for a failed job whose result has just expired
  (`StreamTheorems.CrashReplaysSuccess`, `StreamTheorems.ReplayAgreesIff`).
- Pairing chunks and vectors checks the total only
  (`EmbedLoop.AlignedIffOnePerText`).

## Model

| member | source | states |
|---|---|---|
| SyntaxTree.SplittableCollector.Walk | backend/src/codesensei/indexing/ast_chunker.py:194-203 | The recursive walk appends exactly the outermost nodes of the wanted kinds below a node, in source order, to what was found before. |
| SyntaxTree.FindTopSplittables | backend/src/codesensei/indexing/ast_chunker.py:184-206 | The search returns those nodes for a parent. |
| SyntaxTree.TopIsForest | backend/src/codesensei/indexing/ast_chunker.py:184-206 | They lie in order inside the parent and do not overlap. |
| SyntaxTree.TopFindsAll | backend/src/codesensei/indexing/ast_chunker.py:184-206 | Each is a descendant of a wanted kind, and every descendant of a wanted kind is one of them or inside one. |
| AstChunker.SubtreeWalk.FlushPending | backend/src/codesensei/indexing/ast_chunker.py:244-265 | Flushing appends one chunk spanning the pending declarations, if there are any, and empties the accumulators. |
| AstChunker.SubtreeWalk.EmitGap | backend/src/codesensei/indexing/ast_chunker.py:267-284 | A gap that is empty or white space leaves everything as it is; any other gap flushes and then adds exactly its own text. |
| AstChunker.ChunkSubtree | backend/src/codesensei/indexing/ast_chunker.py:209-335 | The walk with its mutable accumulators yields the chunks of the pieces that the recursive specification assigns to the node. |
| AstTheorems.PiecesExist | backend/src/codesensei/indexing/ast_chunker.py:236-238 | A node yields no chunk exactly when it has no declaration inside. |
| AstTheorems.PiecesTile | backend/src/codesensei/indexing/ast_chunker.py:286-335 | The pieces of a node with a declaration follow one another from its start to its end with only white space between them, at every depth of the recursion. |
| AstTheorems.PiecesCoverOnce | backend/src/codesensei/indexing/ast_chunker.py:286-335 | Pieces are in source order, inside the node and disjoint, and every position that is not white space is in exactly one of them. |
| AstTheorems.ChunksConserveText | backend/src/codesensei/indexing/ast_chunker.py:209-335 | Read in order, the chunk texts hold the node's non-white-space text exactly once. |
| AstTheorems.PieceLines | backend/src/codesensei/indexing/ast_chunker.py:244-284 | A chunk carries the file's path and language and the text of its range; its line range starts on the row of its first position, contains the row of each, and ends on the row of its end, or of its last position for a gap. |
| AstTheorems.PiecesKeepBudget | backend/src/codesensei/indexing/ast_chunker.py:299-330 | Every chunk is a non-blank gap, a run of consecutive declarations of one node whose tokens sum to at most the target, or a declaration over the target with none inside. |
| Packing.GreedyIsMinimal | backend/src/codesensei/indexing/ast_chunker.py:319-328 | Filling the open group until the next item does not fit never uses more groups than any other order-preserving packing under the cap. |
| MergeTheorems.MergeIsOptimal | backend/src/codesensei/indexing/ast_chunker.py:286-335 | For every node and every maximal run of its fitting declarations separated by white space, the node's pieces contain, in one stretch, one piece per group of a packing of the run under the target, in which each group takes what fits before the next begins, and no order-preserving packing has fewer groups. |
| MergeTheorems.EveryFittingInRun | backend/src/codesensei/indexing/ast_chunker.py:299-330 | Every declaration within the target lies in such a maximal run. |
| FileChunks.ChunkWithTreesitter | backend/src/codesensei/indexing/ast_chunker.py:126-181 | A non-positive target is an error; otherwise the result is the one specified for the tree, or None where the caller must fall back. |
| FileChunks.TreesitterContract | backend/src/codesensei/indexing/ast_chunker.py:126-181 | The result is empty exactly for a blank file, and None exactly for a non-blank file without a tree or without declarations. |
| TokenCap.EnforceChunkTokenCap | backend/src/codesensei/indexing/service.py:101-140 | The loop returns the capped chunks of the specification, and beside each its own token count; a list in which every chunk is within 7000 tokens comes back equal. |
| TokenCap.OnlyOverCapIsCut | backend/src/codesensei/indexing/service.py:110-176 | A chunk within the cap comes back as it is, one line over it as its first 21000 characters at the same place, and of more lines every piece is a block of the halving all of whose enclosing blocks are over the cap. |
| TokenCap.FittingChunksKept | backend/src/codesensei/indexing/service.py:110-117 | A list of chunks within the cap is not changed. |
| TokenCap.CapAllConcat | backend/src/codesensei/indexing/service.py:110-140 | Capping goes chunk by chunk: a list is capped as its parts are, in order, and fails if one of them does. |
| TokenCap.SplitIsCut | backend/src/codesensei/indexing/service.py:142-176 | A split that finishes cuts the lines into consecutive non-empty ranges that tile them, each piece within the cap and holding exactly its lines; joining the pieces restores the joined input. |
| TokenCap.CutsLinesAt | backend/src/codesensei/indexing/service.py:142-176 | Read by index: each piece's range starts right after the one before, the first and last are those of the input, and its text is the input's lines at that range. |
| TokenCap.SingleLineFixedPoint | backend/src/codesensei/indexing/service.py:155-165 | On a single line the left recursive call receives its caller's own argument. |
| TokenCap.SingleLineDiverges | backend/src/codesensei/indexing/service.py:155-165 | A single line over the cap exhausts every call depth. |
| TokenCap.SplitFinishesIff | backend/src/codesensei/indexing/service.py:142-176 | With enough call depth, splitting finishes exactly when no line is stuck: over the cap, with every enclosing half over the cap too. |
| TokenCap.LinesFitFinishes | backend/src/codesensei/indexing/service.py:142-176 | If every line fits the cap, splitting finishes. |
| TokenCap.SplitFinishesIffLinesFit | backend/src/codesensei/indexing/service.py:142-176 | For tokenizers that never count fewer tokens for joined lines than for one of them, splitting finishes exactly when every line fits. |
| TokenCap.IndexedFilesNeedFewFrames | backend/src/codesensei/indexing/service.py:155-176 | For files of the size that is indexed, 19 nested calls are enough. |
| TokenCap.CapAllFinishesIff | backend/src/codesensei/indexing/service.py:101-140 | With enough call depth, capping a list of chunks finishes exactly when no over-cap chunk of several lines has a stuck line. |
| TokenCap.CappingMayDiverge | backend/src/codesensei/indexing/service.py:142-176 | There are a tokenizer and a chunk of two lines that no call depth is enough for. |
| TokenCap.CapAllOrigin | backend/src/codesensei/indexing/service.py:110-140 | Every output chunk keeps its input chunk's file, lies inside its line range, and fits the cap unless it is a truncated single line. |
| TokenCap.CapAllKeepsText | backend/src/codesensei/indexing/service.py:110-140 | When nothing is truncated, the output holds the input's text in order and once. |
| TokenCap.CapAllKeepsPaths | backend/src/codesensei/indexing/service.py:110-140 | Capping keeps the set of file paths and never has fewer chunks than before. |
| TokenCap.ShortLineStaysOver | backend/src/codesensei/indexing/service.py:120-134 | A single line over the cap with at most 21000 characters is returned unchanged and stays over the cap. |
| TokenCap.TrimWorksIffShortLinesFit | backend/src/codesensei/indexing/service.py:120-134 | Truncation brings every overlong single line under the cap exactly for tokenizers that give every text of one line and at most 21000 characters at most 7000 tokens. |
| TokenCap.TrimMayMissCap | backend/src/codesensei/indexing/service.py:122-133 | There are a tokenizer and a chunk for which the truncated line stays over the cap. |
| LineChunkers.ChunkSliding | backend/src/codesensei/indexing/chunker.py:223-256 | The loop returns the windows of the specification, for every window size and overlap, also where the step falls back to one line. |
| LineChunkers.WindowAt | backend/src/codesensei/indexing/chunker.py:237-255 | Window k starts k steps from the first line, a step being window - overlap but at least one, and holds up to `window` lines from there; only the last reaches the end; for any window and overlap. |
| LineChunkers.SlidingEmptyIff | backend/src/codesensei/indexing/chunker.py:232-235 | A file has no window exactly if all its lines are blank. |
| LineChunkers.SlidesRow | backend/src/codesensei/indexing/chunker.py:237-255 | For an overlap smaller than the window, each window starts window - overlap lines after the one before, shows exactly its lines, and none contains another. |
| LineChunkers.SlidingCount | backend/src/codesensei/indexing/chunker.py:223-256 | The number of windows is 1 for n <= window, and 1 + ceil((n - window) / (window - overlap)) otherwise. |
| LineChunkers.SlidingRestores | backend/src/codesensei/indexing/chunker.py:223-256 | Dropping the first overlap lines of each later window and concatenating gives back the file's lines. |
| Markdown.ChunkMarkdown | backend/src/codesensei/indexing/chunker.py:180-220 | The two loops return the sections of the specification, with oversize sections replaced by shifted windows. |
| Markdown.BoundaryIffHeading | backend/src/codesensei/indexing/chunker.py:185-191 | A row after the first starts a section exactly when it reads as a heading. |
| Markdown.HeadingExactly | backend/src/codesensei/indexing/chunker.py:177-186 | A heading is one or two hash signs at the start of the line, followed by white space or the end of the line. |
| Markdown.EachSectionChunked | backend/src/codesensei/indexing/chunker.py:188-220 | Every section, from a heading up to the next, is chunked on its own and in place: nothing for a blank one, one chunk of its lines for up to 200, and otherwise its windows moved to where it starts. |
| Markdown.ResplitSection | backend/src/codesensei/indexing/chunker.py:194-209 | Joining a section's lines and splitting them again loses at most one trailing empty line. |
| Markdown.SectionsApart | backend/src/codesensei/indexing/chunker.py:192-219 | Chunks of different sections never share a line. |
| Markdown.MarkdownFaithful | backend/src/codesensei/indexing/chunker.py:180-220 | Every chunk's text is the file's lines at its reported range, and every non-blank line is in some chunk. |
| FileChunks.DispatchChunker | backend/src/codesensei/indexing/chunker.py:273-309 | Each mode is reported for exactly its files, and the chunks are none for a blank file, the pieces of its declarations for a file with a tree and a declaration, heading sections for Markdown without one, and windows of 80 lines overlapping by 10 for every other. |
| FileChunks.DispatchRoutes | backend/src/codesensei/indexing/chunker.py:273-309 | The same, as a case for every language, tree, missing tree and escaping exception. |
| FileChunks.StructuralKeepsText | backend/src/codesensei/indexing/chunker.py:288-309 | A file chunked by structure keeps its non-white-space text, once and in order. |
| FileChunks.DispatchShowsAll | backend/src/codesensei/indexing/chunker.py:273-309 | Whichever chunker is taken, every position that is not white space is inside some chunk that shows its line. |
| FileChunks.DispatchWellLined | backend/src/codesensei/indexing/chunker.py:273-309 | Whichever chunker is taken, a chunk's line range is valid and long enough for the lines of its text. |
| StoredChunks.StoredChunkIsCut | backend/src/codesensei/indexing/service.py:326-371 | Every chunk that is dispatched and then capped has a range that meets the CHECK constraints, holds a stretch of the file (its first 21000 characters if that is one over-cap line), starts on the row of the stretch's first position and contains the row of each. |
| StoredChunks.StoredChunkInParent | backend/src/codesensei/indexing/service.py:101-176 | A stored chunk keeps the file of a dispatched chunk, lies inside its line range, and fits the cap unless it is its truncated single line. |
| StoredChunks.StoredShowsAll | backend/src/codesensei/indexing/service.py:326-371 | When nothing is truncated, every position that is not white space is in a stored chunk whose range contains its row, whichever chunker was taken. |
| StoredChunks.StoredTextIsFileText | backend/src/codesensei/indexing/service.py:326-371 | For a parsed file in which nothing is truncated, the stored chunks hold its non-white-space text exactly once and in order. |
| IndexedRows.ChunkRepo | backend/src/codesensei/indexing/chunker.py:332-357 | The loop over the files yields the chunks of every file that is not blank, in order. |
| IndexedRows.RowIsCut | backend/src/codesensei/indexing/service.py:326-442 | Every row of a successful pass over all files carries the path and language of one of them, meets the CHECK constraints, has its own token count and a 1536-vector, and is cut from that file at its line range, as StoredChunkIsCut says. |
| IndexedRows.RowsShowAll | backend/src/codesensei/indexing/service.py:326-442 | When nothing is truncated, every position of every file that is not white space is in a row of that file whose range contains its row. |
| IndexedRows.RowsHoldText | backend/src/codesensei/indexing/service.py:326-442 | For a file chunked by structure in which nothing is truncated, one stretch of the rows is its own and holds its non-white-space text exactly once and in order; the rows around it are of other files. |
| IndexedRows.TableIsCut | backend/src/codesensei/indexing/service.py:443-452 | After the pass every chunk in the table for the repository is such a row, with the embedder of the pass. |
| DiffWindows.CollapseHunks | backend/src/codesensei/review/git_temporal.py:230-251 | One file's hunks: filtered, sorted, merged in place, clamped and capped as specified. |
| DiffWindows.MergeStep | backend/src/codesensei/review/git_temporal.py:240-245 | Merging the next range of the sorted list keeps the windows in order and more than 5 apart, containing every line of the ranges, and each running from such a line to such a line with the next one never more than 5 on. |
| DiffWindows.CollapseDiffToWindows | backend/src/codesensei/review/git_temporal.py:225-252 | The same for every file; files without a positive-length hunk get no entry. |
| DiffWindows.EntriesExactly | backend/src/codesensei/review/git_temporal.py:225-252 | A file has an entry exactly if one of its hunks has a positive length, and the entry is what its hunks collapse to. |
| DiffWindows.ChainsAreMaximal | backend/src/codesensei/review/git_temporal.py:240-245 | Before clamping, the merged windows are exactly the maximal chains of covered lines under the at-most-5-apart rule, in order and more than 5 apart. |
| DiffWindows.CollapseIsTidy | backend/src/codesensei/review/git_temporal.py:246-251 | The result is the lowest three chains, each as it is or, with more than 200 lines, its first 200. |
| DiffWindows.SameCoverSameWindows | backend/src/codesensei/review/git_temporal.py:225-252 | The windows depend only on the set of covered lines. |
| DiffWindows.HunkOrderIrrelevant | backend/src/codesensei/review/git_temporal.py:225-252 | The windows do not depend on the order of the hunks. |
| DiffWindows.CollapseIdempotent | backend/src/codesensei/review/git_temporal.py:225-252 | Collapsing the windows again changes nothing. |
| UnifiedDiff.HeaderRoundTrip | backend/src/codesensei/review/service.py:34-35 | A hunk header written in the unified format is read back with its start and count. |
| UnifiedDiff.FittingRead | backend/src/codesensei/review/service.py:34 | Every line that fits the pattern, with any digits, counts and white space, is read as the numbers it writes. |
| UnifiedDiff.ReadFits | backend/src/codesensei/review/service.py:34 | Every line that is read as a hunk header fits the pattern. |
| DiffHunks.ExtractRhsHunks | backend/src/codesensei/review/service.py:44-63 | The loop over the diff's lines returns what the line-by-line specification says. |
| DiffHunks.ScanLineExactly | backend/src/codesensei/review/service.py:44-63 | What each line does: a file header changes the current file, a hunk header under one adds its range there if it starts at 1 or later and is not empty, a count left out meaning 1, and nothing else does anything. |
| DiffHunks.FileHeaderExactly | backend/src/codesensei/review/service.py:35-50 | A file header is '+++ b/' and at least one character; the path is what follows without the white space at its ends. |
| DiffHunks.DiffExactIff | backend/src/codesensei/review/service.py:44-63 | A diff of any number of files, one section each with its hunks in order, yields exactly the ranges its headers announce for every file if and only if in every section each hunk announcing one is read while its own file is current, that is, no body line ahead of it reads as a file header naming another. |
| DiffHunks.DiffIsOrdered | backend/src/codesensei/review/service.py:44-63 | The hunks of a diff to a new file announce rising ranges, and a hunk announcing none adds no line. |
| DiffHunks.ExtractionExactIff | backend/src/codesensei/review/service.py:44-63 | The same for the section of one file, whatever the order of its hunks. |
| DiffHunks.SpoofedHeader | backend/src/codesensei/review/service.py:48-52 | An added line whose text starts with ++ b/ redirects the next hunk to another file. |
| DiffHunks.ExtractionExactText | backend/src/codesensei/review/service.py:44-63 | Where every section is read under its own name, every file gets exactly the announced ranges, also when a file has several sections; lines that read as file headers do no harm where no later range follows or they name their own file. |
| DiffHunks.RhsHunksPositive | backend/src/codesensei/review/service.py:58-61 | Every reported range starts at line 1 or later and is not empty. |
| PatchContext.WalkLinesOf | frontend/src/composables/usePatchContext.ts:42-73 | The walk numbers the patch's lines as specified, and reports whether the target is among them. |
| PatchContext.WalkLineExactly | frontend/src/composables/usePatchContext.ts:46-73 | What each line does, by its first character: a header starts numbering, added and context lines are numbered, removed ones kept without a number, backslash lines passed over, and any other line ends the hunk. |
| PatchContext.UsePatchContext | frontend/src/composables/usePatchContext.ts:35-106 | A snippet is returned exactly for a positive target that some entry carries; it shows the entries between the two stopping points as they are, in order, and marks the target's alone. |
| PatchContext.EntriesOfPatch | frontend/src/composables/usePatchContext.ts:42-73 | The entries of a written patch, with any lines before its first hunk and with or without a final newline, are those of its hunks. |
| PatchContext.EntriesTrue | frontend/src/composables/usePatchContext.ts:42-73 | In the patch of a diff, every numbered entry carries the new file's text at its number, and the numbers are exactly the lines of the announced ranges. |
| PatchContext.SnippetIffInRange | frontend/src/composables/usePatchContext.ts:38-80 | A snippet is returned exactly for the target lines in the ranges that the patch's headers announce, and its target line is the new file's. |
| SnippetTheorems.SnippetIffReported | backend/src/codesensei/review/service.py:44-63 | For a file of a diff whose sections are read under their own names, a snippet is returned exactly for the target lines in the ranges that _extract_rhs_hunks reports for that file from the whole diff text. |
| PatchContext.CollectedOnce | frontend/src/composables/usePatchContext.ts:82-97 | The two stopping points are determined by the entries, the target and the context. |
| SnippetTheorems.SnippetFitsIff | frontend/src/composables/usePatchContext.ts:5-7 | A snippet has at most 2 * context + 1 entries exactly if some stretch of at most that many patch entries around the target has, on either side, context numbered lines or the patch's end. |
| SnippetTheorems.NumberedAtMost | frontend/src/composables/usePatchContext.ts:82-105 | A snippet never has more than 2 * context + 1 numbered lines; removed lines come on top. |
| SnippetTheorems.RemovedLinesExceed | frontend/src/composables/usePatchContext.ts:5-7 | A patch text whose snippet with context 1 has four entries. |
| SnippetTheorems.StaysInHunkIff | frontend/src/composables/usePatchContext.ts:87-97 | The snippet stays inside the target's hunk exactly when the hunk has enough numbered lines on that side, or nothing lies beyond it. |
| SnippetTheorems.SnippetCrossesHunks | frontend/src/composables/usePatchContext.ts:5-7 | A patch text of two hunks with added lines for which the snippet of line 2 shows line 51 of the other hunk. |
| Findings.FetchPool | backend/src/codesensei/review/git_temporal.py:404-456 | The pool holds what the lookups found that were started before the time budget ran out, in order. |
| Findings.AttachTemporalContext | backend/src/codesensei/review/service.py:75-88 | Each finding gets the first window of its file that holds its line and has entries; every other finding keeps what it had. |
| Findings.PoolHolds | backend/src/codesensei/review/git_temporal.py:440-451 | The pool holds a window with entries exactly when it was looked up and they were found. |
| Findings.WindowsPassClamp | backend/src/codesensei/review/git_temporal.py:317-322 | Every window of a diff starts at line 1 or later, has 1 to 200 lines, and is looked up unchanged. |
| Findings.OneWindowPerLine | backend/src/codesensei/review/git_temporal.py:225-252 | A line lies in at most one window of its file. |
| Findings.LookedUpAs | backend/src/codesensei/review/git_temporal.py:311-345 | A lookup is made for the window's first 200 lines, and not for an empty window or one before line 1. |
| Findings.ContextIsFirstMatch | backend/src/codesensei/review/service.py:75-88 | From any pool a finding gets the commits of the first window of its file that holds its line and has some, and nothing without a line. |
| Findings.ContextExactly | backend/src/codesensei/review/service.py:75-88 | From diff text to finding: context is set exactly when the finding has a line and a looked-up window of its file holds it and has commits, and it is that window's commits. |
| Findings.PoolOrderIrrelevant | backend/src/codesensei/review/service.py:75-88 | Attachment does not depend on the order of the pool. |
| CloneCache.CloneCache.EvictIfNeeded | backend/src/codesensei/review/git_temporal.py:94-103 | Five directories stay, or all if there are fewer, none that goes was modified later than one that stays; with distinct times the ones that stay are exactly those with fewer than five newer ones. |
| CloneCache.CloneCache.CloneOrReuse | backend/src/codesensei/review/git_temporal.py:172-217 | Whatever the clock: a failed call changes nothing, a hit touches its directory, a miss clones, evicts and touches what is kept; a fetch is attempted exactly for a hit older than an hour; on a clock that moves on, the new cache is the one step the runs are made of. |
| CloneCache.ServedExactly | backend/src/codesensei/review/git_temporal.py:168-217 | A path is returned exactly for an http or https source that is cached or can be cloned. |
| CloneCache.NewestSize | backend/src/codesensei/review/git_temporal.py:94-103 | With distinct times, eviction keeps five sources, or all if there are fewer. |
| CloneCache.RunIsLeastRecentlyUsed | backend/src/codesensei/review/git_temporal.py:172-217 | After any sequential run from an empty cache, a source is cached exactly when it was served and fewer than five other sources were served since. |
| CloneCache.CacheSize | backend/src/codesensei/review/git_temporal.py:94-103 | Never more than five are cached, and with fewer than five every source served so far is. |
| CloneCache.OwnSourceStays | backend/src/codesensei/review/git_temporal.py:183-217 | A hit and a failed call evict nothing; a served source is in the cache afterwards. |
| CloneCache.MissEvictsOldest | backend/src/codesensei/review/git_temporal.py:94-103 | A miss evicts at most one source, from a full cache, and that is the one used longest ago. |
| RepoStore.Database.UpsertRepo | backend/src/codesensei/indexing/store.py:30-52 | A new source gets a fresh row; a known one its existing row, with nothing changed. |
| RepoStore.Database.DeleteRepoById | backend/src/codesensei/indexing/store.py:71-74 | The row and all its chunks go, and nothing else. |
| RepoStore.Database.WriteRepoFailure | backend/src/codesensei/indexing/store.py:77-79 | Only the row's last_error changes; an unknown id changes nothing. |
| RepoStore.Database.ReplaceChunks | backend/src/codesensei/indexing/store.py:82-141 | Inserting and then deleting the complement leaves exactly the new chunks for the repository, all others untouched, and the row's fields refreshed; a missing repository undoes it. |
| RepoStore.InsertedExactly | backend/src/codesensei/indexing/store.py:30-52 | The row a new source gets, field by field, and that nothing else changes. |
| RepoStore.DeletedExactly | backend/src/codesensei/indexing/store.py:71-74 | Deleting removes the row and exactly its chunks. |
| RepoStore.FailureExactly | backend/src/codesensei/indexing/store.py:77-79 | Recording a failure sets last_error and keeps every other field, row and chunk. |
| RepoStore.ReplacedExactly | backend/src/codesensei/indexing/store.py:82-141 | The repository's chunks are one per insert, in order and under fresh ids; its row names their number, the embedder and the time, and no error; all else stays. |
| Lifecycle.RegisterAsync | backend/src/codesensei/indexing/service.py:271-298 | Registration inserts or resets the row; it is refused exactly for a source whose row has neither a time of indexing nor an error, and then changes nothing. |
| Lifecycle.DeleteIfPristine | backend/src/codesensei/indexing/service.py:300-306 | The row goes exactly when it is unindexed with a zero chunk count. |
| Lifecycle.DeleteRepo | backend/src/codesensei/indexing/service.py:217-231 | Deleting is refused for unknown and pending repositories, and removes any other with its chunks. |
| Lifecycle.NextKeeps | backend/src/codesensei/indexing/service.py:180-311 | Every step of requests, workers, searches and settings keeps the lifecycle invariant. |
| Lifecycle.RunKeeps | backend/src/codesensei/indexing/service.py:180-311 | The invariant holds after every run. |
| LifecycleTheorems.RegisterRefusedIff | backend/src/codesensei/indexing/service.py:279-298 | In every reachable state registering changes nothing exactly if the source has a row that is neither indexed nor failed. |
| LifecycleTheorems.RegisterStarts | backend/src/codesensei/indexing/service.py:271-298 | Otherwise it starts a dispatch for the source's row, a new one if there was none, which is then pending with a zero count; its chunks and everything else stay. |
| LifecycleStages.StageFollows | backend/src/codesensei/indexing/service.py:180-311 | Whatever the others do, each repository moves through its own machine: gone, dispatching, rolling back, queued, running, filling, failing, ready, failed, or stuck, with exactly the transitions of the table. |
| LifecycleStages.CommitStores | backend/src/codesensei/indexing/service.py:443-452 | A commit leaves the row indexed at its time, counting the job's rows and naming their embedder, and exactly those rows in the table. |
| LifecycleTheorems.ReadyMeansLastPass | backend/src/codesensei/indexing/service.py:235-311 | In every reachable state a ready repository's chunks are exactly those of its last successful pass, chunk_count is their number, and all were embedded by the provider and model on the row. |
| LifecycleTheorems.OnlyCommitsChangeChunks | backend/src/codesensei/indexing/store.py:82-141 | A repository's chunks change only when a job commits for it or when it is deleted with them. |
| SearchTheorems.AdmittedIff | backend/src/codesensei/indexing/retrieval.py:125-157 | In every reachable state a search is admitted exactly for an indexed repository whose last pass used the embedder of the settings. |
| SearchTheorems.SearchReadsLastPass | backend/src/codesensei/indexing/retrieval.py:125-157 | A search past the gate reads only chunks of the last successful pass, and while the settings have not changed since the gate, chunks embedded as its queries are. |
| SearchTheorems.SearchReadsAlikeIff | backend/src/codesensei/indexing/retrieval.py:125-175 | A search passes the gate and anything happens before it reads: all chunks it reads are embedded as its queries exactly if the repository is gone, nothing was committed for it meanwhile, or the last commit had no chunks or the same embedder; otherwise none of them is. |
| SearchTheorems.OvertakenSearch | backend/src/codesensei/indexing/retrieval.py:125-175 | From any state with a search under way on a ready repository: changed settings and a new pass between gate and read make all chunks it reads differently embedded. |
| SearchTheorems.SearchUnderWay | backend/src/codesensei/indexing/retrieval.py:125-157 | A run of six events from the empty store reaches such a state. |
| LifecycleTheorems.OutstandingIsAlone | backend/src/codesensei/indexing/service.py:217-245 | While a dispatch or job is outstanding it is the only one for its repository, whose row exists and is pending; registering and deleting are refused and the worker finds the row. |
| LifecycleTheorems.RollbackRestoresIff | backend/src/codesensei/indexing/service.py:192-206 | A request whose enqueue fails leaves neither row nor chunks, whatever other requests, jobs and searches do in between; that is the repository as the request found it exactly if the request created the row. |
| LifecycleTheorems.RollbackRestoresStoreIff | backend/src/codesensei/indexing/service.py:192-206 | With nothing in between, the rollback restores the whole store exactly if the source was not registered before; ready and failed repositories are lost. |
| LifecycleTheorems.StrandedExactlyWhen | backend/src/codesensei/indexing/service.py:192-206 | A pending row loses its last task exactly by a queue error that dispatch does not catch, or by a job ending on an exception other than IndexError. |
| LifecycleTheorems.StrandedRunIff | backend/src/codesensei/indexing/service.py:192-206 | At the end of a run a row is stranded exactly if some event of the run abandoned it in that way. |
| LifecycleTheorems.StrandedAtOnce | backend/src/codesensei/indexing/service.py:192-206 | Registering a source while the queue cannot be reached strands its row. |
| LifecycleTheorems.StrandedForever | backend/src/codesensei/indexing/service.py:284-292 | Such a row stays pending, with nothing under way for it, in every continuation. |
| JobStream.ReviewJob | backend/src/codesensei/review/tasks.py:23-164 | Each outcome of a review publishes its frames in order, or none without a job id and a client, and returns its envelope. |
| StreamOutcomes.ReviewEndsAs | backend/src/codesensei/review/tasks.py:44-151 | An invalid repo_id goes before missing input, and both before what the pipeline does, whose result or error is the job's. |
| JobStream.IndexRepoJob | backend/src/codesensei/indexing/tasks.py:17-98 | Each outcome of an index job publishes its frames in order, or none without a job id and a client, and returns its result; only the success frame's failure to publish is not caught. |
| StreamOutcomes.ReturnedTells | backend/src/codesensei/review/tasks.py:44-164 | What a job returns is its result, its error, or an exception, in exactly the matching case. |
| StreamOutcomes.ActsTell | backend/src/codesensei/indexing/tasks.py:31-98 | A job publishes its progress in order and then a complete frame, success exactly for a job that succeeds, with its result or chunk count, and failure with the job's category and message; only an index pass that ends on an unexpected exception has no such frame. |
| StreamOutcomes.FailedPublishTells | backend/src/codesensei/indexing/tasks.py:31-64 | A frame that cannot be published is lost and the job goes on, except for the complete frame of a successful index pass, which ends the job on an exception. |
| JobStream.RunKeeps | backend/src/codesensei/jobs_stream/router.py:37-119 | In every interleaving of worker, result store and handler, the subscription has lost nothing and what was sent is a beginning of the replayed or the forwarded stream. |
| StreamTheorems.StreamIsTidy | backend/src/codesensei/jobs_stream/router.py:71-119 | The client gets init first and once, and complete at most once and last. |
| StreamTheorems.NothingAfterComplete | backend/src/codesensei/jobs_stream/router.py:102-119 | Once complete was sent, nothing more is sent in any continuation. |
| StreamTheorems.LiveIsExact | backend/src/codesensei/jobs_stream/router.py:105-119 | On the live path the client gets exactly what was published since subscribing, in order. |
| StreamTheorems.CompletionReachesClientIff | backend/src/codesensei/jobs_stream/router.py:43-119 | With the job over and the handler run to its end, completion reaches the client exactly if the status was read after the result was stored or complete was published after the subscription. |
| StreamTheorems.MissIsFinal | backend/src/codesensei/jobs_stream/router.py:105-119 | A client that missed completion never gets it. |
| StreamTheorems.LiveCompleteIsFinal | backend/src/codesensei/review/tasks.py:153-164 | A complete frame forwarded live is the job's own. |
| StreamOutcomes.LiveTells | backend/src/codesensei/review/tasks.py:110-164 | A complete frame that a client gets live says Success exactly if the job ended with a review or an index, with that result, and otherwise Failure with the job's error. |
| StreamOutcomes.ReplayedTells | backend/src/codesensei/jobs_stream/router.py:82-104 | A replayed complete frame says Failure exactly while the result of a job that ended with an error is stored, with that error; otherwise Success, with the result or chunk count while it is stored. |
| StreamOutcomes.InitTells | backend/src/codesensei/jobs_stream/router.py:71-80 | The init frame names the state that was read. |
| StreamOutcomes.ClosingIsRight | backend/src/codesensei/jobs_stream/router.py:43-119 | A connection is closed with 1000 exactly when complete was sent last, and with 1011 or 4404 only before anything was sent. |
| StreamOutcomes.UnknownJobCloses | backend/src/codesensei/jobs_stream/router.py:62-64 | The connection is closed with 4404 exactly if the queue does not know the job when its status is read. |
| StreamOutcomes.LiveRun | backend/src/codesensei/jobs_stream/router.py:105-119 | For every job some run delivers all its frames live, from the first to the last. |
| StreamOutcomes.ReplayRun | backend/src/codesensei/jobs_stream/router.py:82-104 | For every job some run has its result stored before the client connects, which then gets the replay. |
| StreamTheorems.ReplayAgreesIff | backend/src/codesensei/jobs_stream/router.py:82-104 | The replayed complete frame has the live one's state, error and result exactly when the stored result is still there, or the job was a successful index pass. |
| StreamTheorems.ReplayedChunksIff | backend/src/codesensei/jobs_stream/router.py:92-94 | The replayed chunk count is right exactly when the result is still there and publishing complete had not failed, or the count is zero. |
| StreamTheorems.CrashReplaysSuccess | backend/src/codesensei/indexing/tasks.py:65-98 | An index job that ends on another exception publishes no complete frame, and its replay says success. |
| Retrieval.CollectBest | backend/src/codesensei/indexing/retrieval.py:177-205 | The dictionary holds, per chunk, the first hit with the best score over all queries, keyed in order of first appearance. |
| Retrieval.SortedByScore | backend/src/codesensei/indexing/retrieval.py:207 | Sorting puts better scores first and keeps the order of equal ones. |
| Retrieval.Search | backend/src/codesensei/indexing/retrieval.py:177-235 | On rows and distances: the chunks with a row at most 1.5 away, each at its smallest distance over all queries and scored 1 - distance / 2, nearest first and equally near ones as first seen, within the budget; whatever is left out does not fit on top of what goes before it; the counters add up. |
| Retrieval.OneNearestFit | backend/src/codesensei/indexing/retrieval.py:177-217 | These conditions determine the selection. |
| Retrieval.TrimRejects | backend/src/codesensei/indexing/retrieval.py:211-217 | A rejected candidate would not fit on top of the selected ones that go before it. |
| History.ReviewHistory.InsertRun | backend/src/codesensei/reviews_history/store.py:44-93 | A run and its findings, numbered in order, are added, and nothing else changes. |
| History.FindingRowsExactly | backend/src/codesensei/reviews_history/store.py:74-88 | There is one finding row per finding, at its place in the list. |
| History.ReviewHistory.ListRuns | backend/src/codesensei/reviews_history/store.py:96-105 | The listing holds the latest runs up to the adjusted limit, newest first. |
| History.ReviewHistory.DeleteRun | backend/src/codesensei/reviews_history/store.py:115-121 | The run and its findings go; the result says whether there was one. |
| History.ReviewHistory.PruneToCap | backend/src/codesensei/reviews_history/store.py:124-135 | The overflow's number of oldest runs goes, with their findings, and nothing else. |
| History.ReviewHistory.PersistRun | backend/src/codesensei/review/service.py:147-178 | Inserting and pruning; only inserting when the prune fails; nothing when the insert fails; and the run's id only when all went well. |
| History.OneListing | backend/src/codesensei/reviews_history/store.py:96-105 | For unique ids there is only one listing of a given length. |
| HistoryTheorems.PruneKeepsNewest | backend/src/codesensei/reviews_history/store.py:124-135 | With distinct times a prune leaves exactly the newest 1000 runs, or all if there are fewer. |
| HistoryTheorems.PruneIsUnseen | backend/src/codesensei/reviews_history/store.py:96-135 | With distinct times every listing, whatever limit is asked for, is the same before and after a prune. |
| HistoryTheorems.PruneIsUnseenIff | backend/src/codesensei/reviews_history/store.py:96-135 | Without that assumption: every possible prune leaves the listing alone exactly if at least as many runs as are removed are strictly older than each listed one. |
| HistoryTheorems.StaysNearCap | backend/src/codesensei/review/service.py:147-178 | Every run of persists and deletes ends at most as many rows over the cap as prunes have failed since the last successful one. |
| HistoryTheorems.HoldsLastThousand | backend/src/codesensei/review/service.py:147-178 | Persisting in order of time, the history is exactly the last 1000 runs. |
| EmbedLoop.EmbedInBatches | backend/src/codesensei/indexing/service.py:392-423 | The loop collects the vectors of all batches or stops with the first error, and sends the frames that are due. |
| EmbedLoop.FillRepo | backend/src/codesensei/indexing/service.py:313-473 | The pass has the specified outcome for every input: too many chunks before or after capping, no provider, a failing provider, wrong dimensions, unequal lengths, a repository that is gone, or the paired rows; the tables take the rows in one swap, and change in no other case. |
| EmbedLoop.FillOutcome | backend/src/codesensei/indexing/service.py:326-442 | For every outcome of a pass the exact condition on chunks, capped chunks, provider and answers. |
| EmbedLoop.EmbedOutcome | backend/src/codesensei/indexing/service.py:392-423 | There are vectors exactly if the provider answers every batch with 1536-vectors; otherwise the first batch that is not so says what went wrong. |
| EmbedLoop.BatchesAreChunks | backend/src/codesensei/indexing/service.py:393-394 | The batches, put together, are the chunk list. |
| EmbedLoop.FilledRows | backend/src/codesensei/indexing/service.py:429-442 | A successful pass stores one row per capped chunk, in order, with its own token count and the vector at its place, of 1536 numbers, and at most 5000 of them. |
| EmbedLoop.VectorsAlign | backend/src/codesensei/indexing/service.py:393-405 | With one vector per text in every answer, each chunk gets the vector computed for its own text. |
| EmbedLoop.RowsHaveOwnVectors | backend/src/codesensei/indexing/service.py:429-442 | With one vector per text in every answer, every row stores its chunk with the vector computed for the chunk's own text. |
| EmbedLoop.AlignedIffOnePerText | backend/src/codesensei/indexing/service.py:432-442 | When the total is right, the vectors of every batch start where its chunks do exactly if every answer has one vector per text. |
| EmbedLoop.MisalignedVectorsPass | backend/src/codesensei/indexing/service.py:432-442 | Two answers with one vector too few and one too many pass the strict zip and pair a chunk with another one's vector. |
| EmbedLoop.ProgressIsSound | backend/src/codesensei/indexing/service.py:327-420 | Progress frames rise in chunks_done, never fall in files_done, never exceed the files_total counted before capping, and reach it with the last chunk. |
| EmbedLoop.FramesTell | backend/src/codesensei/indexing/service.py:407-420 | There is one frame per batch after which one is due, in order; it names the chunks done, the files they touch, and the file of the last. |

## Left out

- tree-sitter, tiktoken, pgvector, git subprocesses, Redis and arq themselves: only what the code relies on is assumed.
- UTF-8 decoding with replacement characters, and the further line separators of Python's `splitlines`.
- The tables of node kinds per language, `language_for`, binary detection and the walk over the repository's files.
- The causes of exceptions in structural chunking: the ones it catches are the same as a missing tree (`NoTree`), the ones it lets escape send every file, Markdown too, to the sliding window (`Raised`); and named children that are None.
- Negative window or overlap arguments of the sliding chunker: the model's are natural numbers.
- `chunk_python`: the dispatcher does not call it, and it drops statements between definitions.
- `derive_queries`: its sections run into the next file's headers, so there is no clean statement of what it extracts.
- The log parsing of `git_temporal.py` (`_parse_log_records`, `_count_hunk_lines`): a lookup's entries are a parameter.
- The clone cache under concurrent calls for different sources.
- CloneCache.NewestSize: distinct modification times only; for ties `EvictIfNeeded` states how many stay.
- CloneCache.RunIsLeastRecentlyUsed: sequential runs on a strictly increasing clock only; with ties the order of equal times decides, and `EvictIfNeeded` states what is kept then.
- `source_kind`, `default_branch` and ignore patterns of a repository row; they are only stored.
- A worker that is killed and whose job the queue runs a second time.
- The half-second throttle, timeouts and time budgets: they are arbitrary choices of the run.
- Rounding of scores and costs: scores are real numbers.
- LLM providers, prompts, model output parsing, GitHub fetch and posting, settings, encryption, health probes, the HTTP layer and the Vue components other than `usePatchContext`.
- TokenCap.SplitFinishesIffLinesFit: "every line fits" is necessary only for tokenizers that count at least as much for joined lines as for each line; for arbitrary ones `SplitFinishesIff` has the exact condition.
- Lifecycle.NextKeeps: the dispatch and the worker are events of a step system, not one method each, because other requests may come between any two of their transactions.
- JobStream.RunKeeps: the socket handler is a sequence of phases for the same reason.
- History.ReviewHistory.InsertRun: of a run only id, time, number of findings and their messages are modelled.
