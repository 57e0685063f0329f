# A verified model of the patch engine, its checkpoints, and the small stateful cores around them

This Dafny project models the parts of the repository whose correctness is hardest to see from the
code, and proves what they promise for all inputs and all runs. `dafny verify dfyconfig.toml` checks
everything.

**The patch engine** (`packages/patch-engine/src/diff.ts`) is modelled whole. `LineModel` folds a
missing final newline into the last line. `EditScript`, `EditGraph` and `LineScript` define edit
scripts, the edit graph with its furthest-reaching points, and the script the engine chooses. The script
is sound for all files and minimal unless every script exceeds the budget of 1000 edits, and `EditOrder`
says which of the shortest ones it is. `LineDiff` is the algorithm itself, with one array overwritten
round by round, a trace of snapshots and the walk back, proved to compute that script. `Hunks` groups
the script and `HunkContext` says what context the hunks carry. `PatchText` and `PatchFormat` print it,
`PatchParse` reads it back, and `PatchApply` applies it without fuzz. `PrintParse` and `RoundTrip` join
them: parsing inverts printing for any list of files, and applying a printed patch gives back the new
file byte for byte under an exact condition, for the default headers and for any others. `PatchGrammar`
says exactly which texts the parser accepts, `ManyFiles` is about patches of several files in one text,
and `LostHunks` about the lines the parser drops.

**Turn checkpoints** (`packages/patch-engine/src/checkpoints.ts`) rest on that. `Checkpoints` says
what a turn records and what undo does with it, and proves that undo inverts a turn, and exactly
when. `UndoRecords` says how undoing any records ends on any files, and what undoing them again does.
`UndoExact` carries that over to turns, which may record a path many times, and says exactly when undo
inverts one; `UndoLimits` has the turns for which it does not. `UndoSafety` is about arbitrary later
changes to the files and arbitrary entries. `CheckpointFiles` is the directory of saved turns, with
listing and retention. `UndoStack` follows whole runs of turns and undos and compares them with a plain
history of file maps. `CheckpointStore` is the store as an object whose methods are proved against these
definitions.

**Smaller cores.** `JsonRpc` is the request session as a step system over every interleaving of
requests, responses, timeouts, write failures and both kinds of closing. `SseFrames` and `SseLines`
are the two incremental stream parsers. `RateLimit` is the fixed-window limiter with its Redis script
and the loop that waits a limit out. `Approval` is the registry of approval requests.

Objects of the source are classes, and each method's `ensures` ties the new fields to a function of
the old ones; loops are loops. The theorems are lemmas about those functions, so they hold of the
methods too.

## How the model reads the source

- The workspace is a map from path to content, and paths are opaque. SHA-256 is taken to be
  injective: a digest stands for its text.
- Clocks, timers, `random()`, the network and Redis replies are parameters or events. JSON parsing
  is a function parameter. Each is allowed to behave in every way the assumptions in the contracts
  leave open.
- Strings are sequences of characters; lengths and offsets count those.
- `formatUnifiedPatch` throws nothing, while `parseUnifiedPatch`, `applyParsedPatch` and `undo` may
  throw: errors are values of `Result`.
- An optional `movedTo` or `undoneAt` is read by the source as a truth value, so the empty string and
  0 stand for "absent".

## Where the code does less than its comments say

- `diff.ts:22` promises `applyParsedPatch(old, patch) === new`. That fails when a deleted line starts
  with `-- `: it prints as `--- ...`, which the parser takes for a file header. It also fails for
  equal contents (the patch is empty, and an empty patch has no entry), for contents with a NUL
  among the first 8000 characters, for different contents with the same keyed lines, which print as the
  empty patch too (`RoundTrip.SameKeysWitness`), for a new file with a newline-terminated line that ends
  in the internal marker, and for a path that loses trailing white space in its header.
  `RoundTrip.RoundTripExactly` proves that there is no other case, for every newline-free path, and
  `RoundTrip.RoundTripUnder` has the condition for other headers.
- `diff.ts:23-24` says that a patch never applies to content it was not made for. An entry whose new
  header is `/dev/null` gives the empty text for every content (`PatchApply.PatchedExact`).
- `diff.ts:376-379` says that no line is ever skipped. Within hunks that is so
  (`PatchParse.AcceptedBody`), but behind a file's last consecutive hunk every line is dropped up to the
  next file header (`PatchParse.AcceptedText`, `PatchGrammar.AcceptedExactly`). One stray or blank line
  between two hunks therefore loses all hunks behind it, and half a patch is applied without an error
  (`LostHunks.HalfPatchApplies`).
- In a text with patches for several files the entry for `b.ts` is taken for `ab.ts` if it comes first
  (`ManyFiles.SuffixIsTaken`).
- `checkpoints.ts:135-136` says that a file edited four times in a turn is restored to what it was
  before the first edit. Only the first record of a path is kept, with the hash of the text after
  that first edit, so undo refuses unless the last edit left the same text (`Checkpoints.RepeatedEdits`,
  and `UndoExact.UndoInvertsExactly` for mixed turns).
- `checkpoints.ts:161-168` drops the record of a move when its old path has one, and `delete_path` and
  `move_path` are moves (`packages/tool-runtime/src/index.ts:996`, 1067-1072). A file that is edited and
  then deleted or renamed is not brought back (`UndoLimits.EditedThenMoved`). After a file is created and
  then renamed, undo reports its old path restored and nothing refused, and the file stays
  (`UndoLimits.CreatedThenMoved`), though `checkpoints.ts:252-254` says that the outcome lists both halves.
  A file moved to a path whose first file was thrown away in the same turn, and edited there, comes
  back with the edit, also reported as a success (`UndoLimits.MovedOverForgotten`).
  `UndoExact.UndoInvertsAnyTurn` has the exact condition for every turn, and
  `UndoExact.UndoInvertsExactly` one that names the unrecorded moves.
- `checkpoints.ts:252-254` says that the outcome lists what was restored and what was not. Undo has no
  outcome when a reverse patch does not apply, for instance for a turn that added a line starting with
  `-- `: it throws, files restored before that stay restored and unreported
  (`UndoExact.UndoEndsExactly`, `UndoLimits.AddedCommentThrows`).
- After a turn whose undo throws or refuses everything, if that undo changes no file or no two entries of
  the turn share a path, every undo of the session does so again and no older turn is reached
  (`UndoStack.UnundoableTurnBlocks`).
- `checkpoints.ts:62` says that a second undo cannot apply a turn twice. `undo` does not look whether the
  turn was undone, only `latest` does. Undoing the same turn again, from a copy of its checkpoint, changes
  nothing if no two of its entries share a path (`UndoExact.UndoTwiceHarmless`), but after two files
  changed places it swaps them once more (`UndoLimits.SwapUndoneTwice`).
- `checkpoints.ts:348-350` calls a failed reproduction unreachable. It is reached exactly when the reverse
  patch applies and a newline-terminated line of the original ends in the internal marker; the file is then
  overwritten and the entry reported as refused (`Checkpoints.UndoEntryExactly`).
- `packages/cache/src/index.ts:95` calls the reset time the seconds until the window resets. In the last
  half second of a window the time to live rounds to 0, and the length of a whole window is reported
  (`RateLimit.ResetExactly`).
- `approval-registry.ts:12-15` says that an answer cannot reach another session's request, and line 61
  that forgetting concerns one session. Both fail exactly for two session ids of which one, joined with
  the separator `::`, begins the other (`Approval.ForgettingReaches`, `Approval.KeysCollide`).

## Model

| member | source | states |
|---|---|---|
| EditScript.RewriteMinimal | packages/patch-engine/src/diff.ts:135-145 | when the two sides share no line, deleting all and inserting all is the shortest script |
| EditScript.WrappedMinimal | packages/patch-engine/src/diff.ts:108-121 | a shortest script for the middles, with the shared head and tail kept around it, is a shortest script for the whole files |
| EditScript.WrappedBeyond | packages/patch-engine/src/diff.ts:108-121 | trimming cannot bring a pair of files within the budget: if no script for the middles is, none for the files is |
| EditGraph.RoundIsFurthest | packages/patch-engine/src/diff.ts:156-172 | after round d every visited diagonal holds exactly the furthest point that d edits can reach: it is reached, and nothing reachable lies beyond it |
| EditGraph.FirstHitIsCorner | packages/patch-engine/src/diff.ts:171 | the first time the exit test fires it is exactly at (n, m) on diagonal n - m, though earlier points may lie outside the grid |
| EditGraph.NoHitNoScript | packages/patch-engine/src/diff.ts:156-182 | when none of the first d rounds exits, no script of fewer than d edits turns the old lines into the new ones |
| EditGraph.RoundBounded | packages/patch-engine/src/diff.ts:149-170 | a stored value is at most n + d, so it fits the 32-bit array |
| EditGraph.StaysInGrid | packages/patch-engine/src/diff.ts:186-205 | a point inside the grid was entered by an edit from a point inside the grid, so the walk back never leaves it |
| EditGraph.WalkSpells | packages/patch-engine/src/diff.ts:184-212 | the walk to a point is a script from the first x old lines to the first y new lines; every kept line really is in both |
| EditGraph.WalkCosts | packages/patch-engine/src/diff.ts:186-205 | the walk to a point of round d makes exactly d edits |
| LineScript.SolvedRoundAtCorner | packages/patch-engine/src/diff.ts:155-174 | the round the search ends in stores the far corner on the corner's diagonal |
| LineScript.MiddleVerdict | packages/patch-engine/src/diff.ts:127-213 | the script for the middle is sound on every exit, and minimal unless every script exceeds the budget |
| LineScript.ScriptVerdict | packages/patch-engine/src/diff.ts:17-20 | for every pair of files the script turns the old one into the new one with the fewest edits of any script, unless every script needs more than 1000 |
| EditOrder.DeletionsComeFirst | packages/patch-engine/src/diff.ts:140-145 | for every pair of files no insertion is directly followed by a deletion: replaced lines are deleted before the new ones are inserted, also in the walk and beyond the budget |
| EditOrder.SharedEndsKept | packages/patch-engine/src/diff.ts:107-121 | all lines both files begin with are kept at the beginning of the script, and all they end with behind those at its end |
| EditOrder.EditsComeLate | packages/patch-engine/src/diff.ts:156-212 | before each edit of the walk, and at its end, no script with as few edits can have passed more lines on the same diagonal |
| LineDiff.FollowSnake | packages/patch-engine/src/diff.ts:169 | the snake ends where the maximal run of matching lines ends |
| LineDiff.EnterDiagonal | packages/patch-engine/src/diff.ts:162-167 | reading the two neighbouring slots of the half-overwritten array gives the entry point that the previous round's values determine |
| LineDiff.RunDiagonal | packages/patch-engine/src/diff.ts:162-171 | one diagonal stores its furthest point in place and leaves the slots still needed as they were |
| LineDiff.RunRound | packages/patch-engine/src/diff.ts:161-172 | one round over the array yields the next frontier, or stops exactly when some diagonal exits |
| LineDiff.Search | packages/patch-engine/src/diff.ts:147-174 | all array indexes are valid, snapshot d holds the state before round d, and the result is the first solving round or -1 |
| LineDiff.BackAlongSnake | packages/patch-engine/src/diff.ts:194-197 | the walk back emits exactly the kept lines of the snake, last to first |
| LineDiff.PreviousPoint | packages/patch-engine/src/diff.ts:189-193 | the point read from the snapshot is the one the forward search came from |
| LineDiff.BackOneRound | packages/patch-engine/src/diff.ts:186-205 | one level of the walk back lands on the point round d - 1 stored and emits one edit and one snake |
| LineDiff.WalkBack | packages/patch-engine/src/diff.ts:184-212 | the walk ends at (0, 0) and, reversed, is the forward walk |
| LineDiff.SharesAnyLine | packages/patch-engine/src/diff.ts:137-139 | true exactly when some line occurs on both sides |
| LineDiff.MyersMiddle | packages/patch-engine/src/diff.ts:127-213 | the imperative search and walk back compute a script that is sound, minimal unless beyond the budget, and deletes before it inserts |
| LineDiff.TrimSharedTail | packages/patch-engine/src/diff.ts:111-112 | the tail cut off is the longest shared one that does not reach into the head |
| LineDiff.DiffLines | packages/patch-engine/src/diff.ts:102-124 | the whole diff computes the script that `ScriptVerdict`, `DeletionsComeFirst` and `SharedEndsKept` are about |
| LineModel.SplitJoinContent | packages/patch-engine/src/diff.ts:46-59 | joining what splitting gives restores every content |
| LineModel.ComputeKeyLines | packages/patch-engine/src/diff.ts:62-68 | the keyed lines are the lines, the last one marked when the file lacks a final newline |
| LineModel.UnkeyKeyLines | packages/patch-engine/src/diff.ts:541-545 | reading keyed lines back gives the original bytes if and only if no newline-terminated line ends in the marker |
| LineModel.NulFree | packages/patch-engine/src/diff.ts:71-73 | a text without NUL is neither taken for binary nor ambiguous under the marker |
| LineModel.BinaryExactly | packages/patch-engine/src/diff.ts:71-74 | a content looks binary if and only if one of its first 8000 characters is NUL |
| Hunks.HunkLineSides | packages/patch-engine/src/diff.ts:278-288 | moving the marker from the line into a flag loses nothing: a hunk's old and new lines are those of its part of the script |
| Hunks.GroupsSeparate | packages/patch-engine/src/diff.ts:252-270 | every edit lies in a group, groups begin and end with edits, and consecutive groups are more than twice the context apart |
| Hunks.HunkHeaders | packages/patch-engine/src/diff.ts:290-309 | each header's starts and counts name exactly the lines its sides span, with the empty-range rule of POSIX.1-2017 diff, "Diff -u or -U Output Format" |
| Hunks.HunksApart | packages/patch-engine/src/diff.ts:240-312 | hunks are in order with at least one untouched line of both files between consecutive ones |
| HunkContext.HunksCarryContext | packages/patch-engine/src/diff.ts:256-312 | each hunk begins and ends with exactly as many kept lines as asked for, fewer only where both files begin or end, and has no more than twice as many in a row inside |
| HunkContext.HunkLiesAt | packages/patch-engine/src/diff.ts:273-309 | a hunk's lines are the script's from some op on, and its starts number each side's first line there, or the line before if that side is empty |
| Hunks.NumberLines | packages/patch-engine/src/diff.ts:244-250 | the two number arrays give every line its number on each side it appears on |
| Hunks.CollectChanged | packages/patch-engine/src/diff.ts:252-253 | the indices of all edits, in order |
| Hunks.GroupChanges | packages/patch-engine/src/diff.ts:256-270 | the loop merges changes at most twice the context apart and no others |
| Hunks.FirstOther | packages/patch-engine/src/diff.ts:293-294 | the first op of the hunk that contributes to a side, or -1 |
| Hunks.CollectLines | packages/patch-engine/src/diff.ts:276-288 | the hunk's lines and the counts of its two sides |
| Hunks.OldStart | packages/patch-engine/src/diff.ts:295-297 | the lookup in the number array gives the start the header rule asks for, also for an empty side |
| Hunks.NewStart | packages/patch-engine/src/diff.ts:298-300 | the same for the new side |
| Hunks.EmitHunk | packages/patch-engine/src/diff.ts:273-309 | one group becomes the hunk that `HunkHeaders`, `HunksCarryContext` and `HunkLiesAt` are about |
| Hunks.BuildHunks | packages/patch-engine/src/diff.ts:240-312 | all loops together compute the hunks of the script, which those three lemmas and `HunksApart` are about |
| PatchFormat.FormatUnifiedPatch | packages/patch-engine/src/diff.ts:332-361 | the text printed is empty, a binary note or the headers and hunks of the chosen script, line by line |
| PatchFormat.PatchBegins | packages/patch-engine/src/diff.ts:347-360 | a patch begins with the old file's header line and then the new one's, the given ones or the path behind `a/` and `b/`, and ends with a newline |
| PatchFormat.PatchCarriesContext | packages/patch-engine/src/diff.ts:344 | its hunks carry the context asked for, three lines by default |
| PatchFormat.NulGivesNote | packages/patch-engine/src/diff.ts:339-341 | different contents of which one has an early NUL give the note for binary files and no patch |
| PatchText.ShortRange | packages/patch-engine/src/diff.ts:314-318 | the short range form without a count is used exactly for one line |
| PatchParse.ReadBody | packages/patch-engine/src/diff.ts:422-460 | an accepted body has exactly the advertised counts, and written out again it is the lines consumed, but for repeated markers: no line is skipped; the loop takes every branch and error case of the body grammar |
| PatchParse.ReadHunks | packages/patch-engine/src/diff.ts:413-462 | the hunks lie one right after the other, each accounting for all of its lines, up to the first line that starts no hunk |
| PatchParse.SkipToHunks | packages/patch-engine/src/diff.ts:402-411 | only decoration is skipped, up to the first hunk or file header; it fails exactly at the first line that is neither |
| PatchParse.ParseUnifiedPatch | packages/patch-engine/src/diff.ts:381-475 | an accepted text is made of the files returned, line for line, and of lines between them that are dropped |
| PatchParse.AcceptedBody | packages/patch-engine/src/diff.ts:376-379 | an accepted body has the counts of its header and drops no line but a repeated marker |
| PatchParse.AcceptedHunks | packages/patch-engine/src/diff.ts:413-462 | consecutive hunks account for all lines from the first one's header to the line where reading stops |
| PatchParse.SkipsDecoration | packages/patch-engine/src/diff.ts:402-411 | skipping succeeds at a line if and only if all lines before it are decoration and it starts a hunk or a file |
| PatchParse.GitLineSkipped | packages/patch-engine/src/diff.ts:402-411 | each of the lines git puts between headers and hunks is skipped |
| PatchParse.SideStripped | packages/patch-engine/src/diff.ts:394 | one leading `a/` or `b/` is dropped from a header, and nothing else |
| PatchParse.PathOfHeaders | packages/patch-engine/src/diff.ts:394-398 | the path comes from the new header, or from the old one if the new one is missing or `/dev/null`; those make a new or deleted file |
| PatchParse.AcceptedText | packages/patch-engine/src/diff.ts:385-472 | exactly those lines of an accepted text are dropped that follow the last of a file's consecutive hunks, up to the next file header, or come before the first one |
| PatchParse.DroppedIgnored | packages/patch-engine/src/diff.ts:468-471 | dropped lines make no difference to the result, whatever they hold |
| PatchGrammar.BodyReadsBack | packages/patch-engine/src/diff.ts:422-460 | lines that account for a hunk's body, with the counts of its header and no further marker behind them, are read as exactly that body |
| PatchGrammar.AcceptedExactly | packages/patch-engine/src/diff.ts:381-475 | a text is read as a list of files if and only if it is those files line for line, in order, and between and behind them only dropped lines |
| LostHunks.StrayLineLosesHunks | packages/patch-engine/src/diff.ts:413-471 | a stray line behind some hunks of a file drops all hunks behind it without an error, for every file, every split of its hunks and every such line |
| LostHunks.HalfPatchApplies | packages/patch-engine/src/diff.ts:485-546 | a printed patch with a stray line behind its k-th hunk applies and makes only the first k changes |
| LostHunks.BlankLineWitness | packages/patch-engine/src/diff.ts:471 | a two-hunk text with a blank line in between that parses to one hunk |
| PrintParse.ParsePrinted | packages/patch-engine/src/diff.ts:352-360 | parsing the printed patches of any number of files gives back those files in order, with the same hunks, ranges, sections and no-newline markers |
| PrintParse.PrintedConcat | packages/patch-engine/src/diff.ts:347-360 | the text for several files is their texts one after the other, so parsing a concatenation parses each |
| PrintParse.PrintedParsesExactly | packages/patch-engine/src/diff.ts:381-475 | the printed patches of any list of well-formed files parse, to exactly those files, if and only if no new header is blank and no deleted line starts with `-- ` |
| PrintParse.PrintedStops | packages/patch-engine/src/diff.ts:391-438 | a blank new header, or a hunk with a deleted line that starts with `-- `, makes the whole text unparsable |
| PatchApply.ApplyExact | packages/patch-engine/src/diff.ts:498-539 | a hunk list applies exactly when its hunks are in order, do not overlap and match line for line where they say; the result is the file with those ranges replaced |
| PatchApply.PatchedExact | packages/patch-engine/src/diff.ts:485-546 | the same for a patch text with an entry for the path, in both directions; a delete entry applies to any content and gives the empty text |
| PatchApply.NamesExactly | packages/patch-engine/src/diff.ts:487-490 | an entry is a path's if and only if it is the path, the path inside a directory, or an end of the path |
| PatchApply.OldSideOf | packages/patch-engine/src/diff.ts:503 | the lines of a hunk that its old file must have |
| PatchApply.CheckOldSide | packages/patch-engine/src/diff.ts:515-531 | the first reason why the old side is not what the file has there, or none |
| PatchApply.ApplyAll | packages/patch-engine/src/diff.ts:499-539 | the loop over hunks with its cursor computes the application that `ApplyExact` is about |
| PatchApply.FindTarget | packages/patch-engine/src/diff.ts:487-489 | the first entry whose path is the wanted one, ends with it after a slash, or is an end of it |
| PatchApply.ApplyParsedPatch | packages/patch-engine/src/diff.ts:485-546 | parse, find and apply together compute what `RoundTripExactly` and `PatchedExact` are about |
| RoundTrip.HunksFit | packages/patch-engine/src/diff.ts:502-538 | the hunks of a script fit its old side, for every amount of context |
| RoundTrip.ApplyOwnHunks | packages/patch-engine/src/diff.ts:502-539 | applying a script's hunks to its old side gives its new side, for every amount of context |
| RoundTrip.HunksPrintable | packages/patch-engine/src/diff.ts:352-359 | all hunks of a script can be printed and read back exactly when it deletes no line that starts with `-- ` |
| RoundTrip.NoHunks | packages/patch-engine/src/diff.ts:343-345 | there are no hunks exactly when the keyed files are the same |
| RoundTrip.PrintedOutcome | packages/patch-engine/src/diff.ts:485-546 | exactly when a printed patch can be applied to its own old file, and what it then gives, also when that is not the new file |
| RoundTrip.PrintedOutcomeUnder | packages/patch-engine/src/diff.ts:485-546 | with any headers: exactly when a printed patch can be applied to its own old file, and what it then gives |
| RoundTrip.RoundTripUnder | packages/patch-engine/src/diff.ts:321-361 | byte fidelity with its exact condition for every pair of headers: the new one is not blank and names the path, and a patch to `/dev/null` only gives an empty file |
| RoundTrip.DeletionPatch | packages/patch-engine/src/diff.ts:394-398 | a patch to `/dev/null` reads back as a deletion under the file's own path, and applying it for that path empties any content |
| RoundTrip.CreationPatch | packages/patch-engine/src/diff.ts:394-398 | a patch from `/dev/null` reads back as a new file under its own path |
| RoundTrip.FoundInDirectory | packages/patch-engine/src/diff.ts:487-490 | a patch made for a file in a directory applies, byte for byte, for the name of the file inside it |
| RoundTrip.BinaryPatch | packages/patch-engine/src/diff.ts:468-471 | the note for binary files is refused by the parser |
| RoundTrip.RoundTripExactly | packages/patch-engine/src/diff.ts:21-22 | byte fidelity with its exact condition, for every newline-free path, every two contents and every context, including the final newline |
| RoundTrip.SameKeysWitness | packages/patch-engine/src/diff.ts:62-68 | two different contents that look like text and have the same keyed lines, so that the change prints as the empty patch |
| RoundTrip.RoundTripOfText | packages/patch-engine/src/diff.ts:21-22 | for NUL-free contents and an ordinary path the law holds exactly when the contents differ and no deleted line starts with `-- ` |
| RoundTrip.RemovingDashesFails | packages/patch-engine/src/diff.ts:436-438 | removing any copy of a line that starts with `-- ` prints a patch the parser refuses |
| RoundTrip.DashWitness | packages/patch-engine/src/diff.ts:436-438 | a concrete two-line file for which byte fidelity fails |
| RoundTrip.ForeignFile | packages/patch-engine/src/diff.ts:23-24 | a patch made for one file applies to another only if that file agrees with the original on every hunk's range |
| ManyFiles.FirstMatchApplies | packages/patch-engine/src/diff.ts:487-489 | the patches of several files in one text do, for a path, what the first one does whose path is the wanted one, ends with it after a slash, or is an end of it; with none it fails |
| ManyFiles.RoundTripOfMany | packages/patch-engine/src/diff.ts:485-546 | each file gets its new content from the text of all patches if no earlier path matches its own |
| ManyFiles.SuffixIsTaken | packages/patch-engine/src/diff.ts:488 | an earlier patch for `b.ts` is taken for `ab.ts` |
| Checkpoints.RestoreExactly | packages/patch-engine/src/checkpoints.ts:344-353 | the reverse patch of a change restores the text, writes a wrong one and reports it, or throws, and exactly when it does which |
| Checkpoints.UndoEntryExactly | packages/patch-engine/src/checkpoints.ts:261-354 | for every mutation and any files found: when undoing it throws, when it writes a wrong text, when it takes the mutation back, and that otherwise it refuses and touches nothing |
| Checkpoints.EveryMutationRecorded | packages/patch-engine/src/checkpoints.ts:138-174 | a turn that records no path twice keeps an entry per mutation, in order |
| Checkpoints.UndoOneMutation | packages/patch-engine/src/checkpoints.ts:261-354 | undoing the entry of an edit, creation, deletion or move takes exactly that mutation back if and only if it is reversible |
| Checkpoints.UndoRemembers | packages/patch-engine/src/checkpoints.ts:258-261 | what has been restored or refused stays reported |
| Checkpoints.UndoInvertsTurn | packages/patch-engine/src/checkpoints.ts:256-363 | undo gives back the pre-turn files without conflict if and only if every mutation is reversible; every recorded path is then restored, last first |
| Checkpoints.LaterEditsUnrecorded | packages/patch-engine/src/checkpoints.ts:140 | later mutations of recorded paths, of whatever kind, leave the checkpoint as it is |
| Checkpoints.RepeatedEdits | packages/patch-engine/src/checkpoints.ts:135-140 | several writes of one file, new or not, are undone exactly when the last one left the text of the first and that write is reversible |
| UndoRecords.RetraceRecords | packages/patch-engine/src/checkpoints.ts:256-363 | records of whatever mutations, undone on whatever files: the paths restored, the refusals with their reasons and the files left, step by step back from the last record, and at which record undo throws, if at one |
| UndoRecords.CleanExactly | packages/patch-engine/src/checkpoints.ts:252-363 | undo refuses and throws nothing if and only if each record is intact and reversible on the files that undoing the later ones left |
| UndoRecords.UndoApart | packages/patch-engine/src/checkpoints.ts:256-363 | records that share no path do not influence each other: each ends as it would alone, up to the first that throws |
| UndoRecords.BlockedAgain | packages/patch-engine/src/checkpoints.ts:356-360 | if undoing such records throws or restores nothing, so does undoing them again on the files that leaves |
| UndoRecords.SecondUndoHarmless | packages/patch-engine/src/checkpoints.ts:61-62 | undoing such records a second time leaves every file as the first undo left it, and throws exactly if that did |
| UndoExact.EntriesOfRecords | packages/patch-engine/src/checkpoints.ts:138-174 | a checkpoint holds the first record of each path, taken from the files just before that mutation, for every turn |
| UndoExact.UndoAnyTurn | packages/patch-engine/src/checkpoints.ts:138-363 | how the undo of any turn ends on any files, as a walk back over its records |
| UndoExact.UndoInvertsAnyTurn | packages/patch-engine/src/checkpoints.ts:252-363 | for every turn: undo restores the files and refuses nothing if and only if each record is taken back in its turn, and for each path the record undone last gives it what it had |
| UndoExact.UndoInvertsExactly | packages/patch-engine/src/checkpoints.ts:135-174 | for turns in which nothing happens any more where a file was moved to: undo inverts the turn if and only if each record is taken back in its turn, and every move left a record or goes to a path that has one |
| UndoExact.FreshApart | packages/patch-engine/src/checkpoints.ts:138-174 | when moves go to paths no other mutation touches, as into the trash, the records of a turn share no path |
| UndoExact.UndoInvertsFresh | packages/patch-engine/src/checkpoints.ts:135-174 | such a turn is inverted if and only if each created file is gone or as its record left it, each edited one as its record left it and reversible, each removed one gone or empty and reversible, each moved one's old path free, and every move left a record |
| UndoExact.UndoEndsExactly | packages/patch-engine/src/checkpoints.ts:256-363 | a turn whose records share no path, on any files: undo throws exactly if some record's patch does not apply to what it left and is still there; else each path ends as its own record says, and nothing is refused exactly if each is taken back |
| UndoExact.UndoTwiceHarmless | packages/patch-engine/src/checkpoints.ts:61-62 | undoing such a turn again from the same entries changes no file, whatever the files were at first |
| UndoLimits.AddedCommentThrows | packages/patch-engine/src/checkpoints.ts:344 | adding an SQL comment is a turn whose undo throws on the files just as the turn left them |
| UndoLimits.CreatedThenMoved | packages/patch-engine/src/checkpoints.ts:161-168 | for every file created and then moved, undo reports full success and the new file stays |
| UndoLimits.EditedThenMoved | packages/patch-engine/src/checkpoints.ts:161-168 | for every file edited and then moved or deleted, undo restores nothing |
| UndoLimits.MovedOverForgotten | packages/patch-engine/src/checkpoints.ts:161-168 | for a file moved to a path created and thrown away before, and edited there, undo reports full success and leaves the edit, and the thrown away file |
| UndoLimits.SwapUndoneTwice | packages/patch-engine/src/checkpoints.ts:61-62 | after any two files changed places, undo restores them, and undoing the same entries again swaps them once more |
| UndoSafety.UndoEntryIsSafe | packages/patch-engine/src/checkpoints.ts:261-354 | whatever the files have become: a text is replaced or removed only if it hashes to the entry's afterHash, a move back overwrites nothing and keeps the bytes, a refusal touches nothing unless the patch applied to the turn's own text gives another text than the original, an error comes exactly when that patch does not apply, and a path reported restored is |
| UndoSafety.RefusalsJustified | packages/patch-engine/src/checkpoints.ts:268-352 | every refusal names the entry's path and a reason that is true of the files found |
| UndoSafety.CopiesKeptByEntry | packages/patch-engine/src/checkpoints.ts:261-354 | undoing an entry leaves at least as many copies of any text that is not the entry's own work |
| UndoSafety.ForeignWorkSurvives | packages/patch-engine/src/checkpoints.ts:16-18 | a whole undo loses no copy of any text that the turn did not leave behind |
| UndoSafety.UnnamedFilesUntouched | packages/patch-engine/src/checkpoints.ts:256-354 | a file that no entry names stays exactly as it is |
| UndoSafety.EveryEntryReported | packages/patch-engine/src/checkpoints.ts:252-254 | undo reports every entry exactly once, as restored or refused, if and only if it does not throw |
| CheckpointFiles.SortedOrdered | packages/patch-engine/src/checkpoints.ts:204 | a listing holds the session's files, newest first |
| CheckpointFiles.SortedStable | packages/patch-engine/src/checkpoints.ts:204 | checkpoints of the same time are listed in directory order |
| CheckpointFiles.ListedWithout | packages/patch-engine/src/checkpoints.ts:196-245 | removing files and listing them commute |
| CheckpointFiles.PruneKeepsNewest | packages/patch-engine/src/checkpoints.ts:224-245 | retention leaves every session its newest `keep` checkpoints, whatever other sessions have stored |
| CheckpointFiles.SavedComesFirst | packages/patch-engine/src/checkpoints.ts:186-204 | a new and newest turn is listed first, before an otherwise unchanged list |
| CheckpointFiles.ListedOverwritten | packages/patch-engine/src/checkpoints.ts:356-360 | rewriting a checkpoint's file changes its place in the listing and nothing else |
| UndoStack.TurnKeeps | packages/patch-engine/src/checkpoints.ts:180-189 | committing a turn keeps the store and the history of file maps in step, also when retention forgets a turn |
| UndoStack.UndoKeeps | packages/patch-engine/src/checkpoints.ts:208-363 | undoing the newest live checkpoint refuses nothing and is one step back in the history |
| UndoStack.UndoMarks | packages/patch-engine/src/checkpoints.ts:356-360 | for any files and any checkpoint, also a stale copy: if undo restored anything and did not throw, exactly the file of that name becomes the checkpoint with its undo time, whatever else was refused; otherwise no file changes |
| UndoStack.UndoMarksListed | packages/patch-engine/src/checkpoints.ts:356-360 | in the session's listing that checkpoint is marked in its place and nothing else changes |
| UndoStack.UndoMovesOn | packages/patch-engine/src/checkpoints.ts:207-363 | after an undo, partly refused or not, the next one takes an older turn if and only if something was restored and nothing was thrown |
| UndoStack.RunsKeepHistory | packages/patch-engine/src/checkpoints.ts:180-363 | over every run of committed turns and undos the files and checkpoints are those of the history |
| UndoStack.HistoryIsStack | packages/patch-engine/src/checkpoints.ts:207-210 | without forgotten turns the history behaves as a plain stack |
| UndoStack.UndoIsAStack | packages/patch-engine/src/checkpoints.ts:180-363 | with no more turns than are retained, the files after any run are those of a stack that turns push and undos pop |
| UndoStack.UndosReachBack | packages/patch-engine/src/checkpoints.ts:207-210 | k steps back restore the files before the k-th newest remembered turn that is not undone |
| UndoStack.UndosAfterRun | packages/patch-engine/src/checkpoints.ts:180-363 | whatever the retention limit, after any run k undos restore the files from before the k-th newest turn that is neither undone nor forgotten |
| UndoStack.StuckStays | packages/patch-engine/src/checkpoints.ts:356-360 | an undo that throws or restores nothing marks no checkpoint, the next one does the same, and from then on the files stay as they are |
| UndoStack.UnundoableTurnBlocks | packages/patch-engine/src/checkpoints.ts:207-363 | after a turn whose undo throws or restores nothing, if it changes no file or no two entries share a path, however often undo is called, its checkpoint stays the newest live one and no older turn is reached |
| CheckpointStore.RecordsPath | packages/patch-engine/src/checkpoints.ts:140 | whether a path is already recorded |
| CheckpointStore.GroupBySession | packages/patch-engine/src/checkpoints.ts:230-238 | the files of every session, in directory order |
| CheckpointStore.TurnCheckpointStore.constructor | packages/patch-engine/src/checkpoints.ts:92-107 | at least one turn is retained, 20 by default |
| CheckpointStore.TurnCheckpointStore.BeginTurn | packages/patch-engine/src/checkpoints.ts:121-123 | an open turn without entries replaces whatever was open |
| CheckpointStore.TurnCheckpointStore.RecordEdit | packages/patch-engine/src/checkpoints.ts:138-152 | without an open turn or for a recorded path nothing changes; otherwise the entry is added last |
| CheckpointStore.TurnCheckpointStore.RecordMove | packages/patch-engine/src/checkpoints.ts:161-174 | the same for a move |
| CheckpointStore.TurnCheckpointStore.CommitTurn | packages/patch-engine/src/checkpoints.ts:180-189 | a turn with entries is saved and retention applied; an empty one leaves no checkpoint |
| CheckpointStore.TurnCheckpointStore.CancelTurn | packages/patch-engine/src/checkpoints.ts:192-194 | the open turn is dropped |
| CheckpointStore.TurnCheckpointStore.List | packages/patch-engine/src/checkpoints.ts:196-205 | the listing that `SortedOrdered` is about |
| CheckpointStore.TurnCheckpointStore.Latest | packages/patch-engine/src/checkpoints.ts:208-210 | the newest checkpoint that is not undone, if any |
| CheckpointStore.TurnCheckpointStore.Prune | packages/patch-engine/src/checkpoints.ts:224-245 | grouping, sorting and unlinking file by file leaves the directory that `PruneKeepsNewest` is about |
| CheckpointStore.TurnCheckpointStore.RestoreFile | packages/patch-engine/src/checkpoints.ts:344-353 | what the reverse patch makes is written, and reported unless it is the original |
| CheckpointStore.TurnCheckpointStore.UndoOne | packages/patch-engine/src/checkpoints.ts:261-354 | all branches of the undo loop do what the theorems say of one entry |
| CheckpointStore.TurnCheckpointStore.Undo | packages/patch-engine/src/checkpoints.ts:256-363 | the loop undoes the entries in reverse order, stops at the first error, and marks exactly the turn's own file exactly when something was restored |
| JsonRpc.StepTells | packages/mcp-runtime/src/json-rpc.ts:116-239 | one event tells a caller something exactly when it concerns the caller's pending request |
| JsonRpc.RunValid | packages/mcp-runtime/src/json-rpc.ts:53-240 | over every interleaving ids count up and are never reused, pending is exactly the issued but unsettled set, no request is settled twice, and nothing is pending after closing |
| JsonRpc.SettledByFirstConcern | packages/mcp-runtime/src/json-rpc.ts:116-239 | a request is settled by the first event that concerns it, only with its own id's answer (section 5 of JSON-RPC 2.0), and never again |
| JsonRpc.ToldWhatItBrings | packages/mcp-runtime/src/json-rpc.ts:116-239 | in every interleaving: an error rejects the caller, with or without a result, a result alone answers, and a timeout, a failed write or either kind of closing is told as such, whichever comes first, once |
| JsonRpc.ToldNothingElse | packages/mcp-runtime/src/json-rpc.ts:116-239 | a request that no event concerns is told nothing; a message with neither result nor error concerns none |
| JsonRpc.ClosedForGood | packages/mcp-runtime/src/json-rpc.ts:158-239 | after closing, by either side, nothing is issued, told or reported any more |
| JsonRpc.ExitReported | packages/mcp-runtime/src/json-rpc.ts:211-233 | the exit is reported once if the peer closed first, and never if the caller did |
| JsonRpc.JsonRpcSession.Request | packages/mcp-runtime/src/json-rpc.ts:158-198 | a closed session issues nothing; an open one uses the next id, arms its timer and writes it |
| JsonRpc.JsonRpcSession.Route | packages/mcp-runtime/src/json-rpc.ts:116-132 | a response settles the pending request with its id, an error before a result; anything else changes nothing |
| JsonRpc.JsonRpcSession.OnTimer | packages/mcp-runtime/src/json-rpc.ts:172-178 | a timer ends its own request |
| JsonRpc.JsonRpcSession.OnWriteFailed | packages/mcp-runtime/src/json-rpc.ts:190-196 | a late write failure changes nothing unless the request still waits |
| JsonRpc.JsonRpcSession.HandleClose | packages/mcp-runtime/src/json-rpc.ts:211-226 | the peer's closing tells everybody who waits, in order, and reports the exit |
| JsonRpc.JsonRpcSession.Close | packages/mcp-runtime/src/json-rpc.ts:229-239 | the caller's closing tells everybody who waits and reports no exit |
| SseFrames.ScanFirstBlank | packages/mcp-runtime/src/http-transport.ts:62-69 | cutting at the first blank line completes the block that reading character by character completes |
| SseFrames.CurrentNoBlank | packages/mcp-runtime/src/http-transport.ts:61-69 | the text kept back never contains a blank-line boundary |
| SseFrames.ParseEventBlock | packages/mcp-runtime/src/http-transport.ts:74-85 | the last event name and all data lines of a block; no frame without data |
| SseFrames.BlockToFrame | packages/mcp-runtime/src/http-transport.ts:74-85 | a block gives a frame exactly if a line begins with `data:`; its data are those lines in order, its event the last `event:` line's, or `message` |
| SseFrames.SseParser.Push | packages/mcp-runtime/src/http-transport.ts:55-71 | a chunk is read on from where the last one stopped; beyond the limit it is refused and the buffer kept |
| SseFrames.ChunksDoNotMatter | packages/mcp-runtime/src/http-transport.ts:51-72 | however the text is cut, the frames are those of reading it whole; a text that is too long is refused by the chunk that passes the limit, after the frames completed before it have been delivered |
| SseFrames.FieldsReadBack | packages/mcp-runtime/src/http-transport.ts:74-85 | a frame's fields are read back, but for white space around the event name and before data lines |
| SseFrames.StreamReadBack | packages/mcp-runtime/src/http-transport.ts:50-85 | frames that a server writes arrive one for one and in order, wherever the text is cut |
| SseLines.SplitOn | packages/model-gateway/src/utils.ts:103-104 | splitting a text in two steps, the last piece going on in the second, gives the pieces of the whole |
| SseLines.ParseSse | packages/model-gateway/src/utils.ts:92-134 | for every way of cutting the text into chunks the events are those of its lines, the unfinished last line included |
| SseLines.ProviderReadBack | packages/model-gateway/src/utils.ts:92-134 | the payloads a provider writes are its events in order: `[DONE]` the end mark, others the value they parse to, if they do |
| SseLines.OtherLinesIgnored | packages/model-gateway/src/utils.ts:92-134 | lines that do not begin with `data:` give no event |
| RateLimit.Redis.Eval | packages/cache/src/index.ts:116-119 | the script's effect on the counter, its expiry and its reply |
| RateLimit.CheckRateLimit | packages/cache/src/index.ts:128-167 | without a client the call is allowed as failed open; when the command fails it is denied as failed closed if that was asked for, and else allowed as failed open; otherwise it is counted |
| RateLimit.CountersExpire | packages/cache/src/index.ts:110-119 | no run of calls leaves a counter without an expiry |
| RateLimit.SameWindow | packages/cache/src/index.ts:146-158 | while a window is open, the calls still within the limit are allowed and no others |
| RateLimit.WindowAllowsExactly | packages/cache/src/index.ts:121-127 | from the call that opens a window to its end exactly the first `limit` calls are allowed |
| RateLimit.AnswerCounts | packages/cache/src/index.ts:146-158 | a counted answer allows exactly the calls within the limit, and what it gives as remaining is how many of the key's further calls in that window are allowed, in every run |
| RateLimit.ResetExactly | packages/cache/src/index.ts:95-96 | the reset time is right to half a second if and only if the window has half a second left; after that a whole window is reported |
| RateLimit.BudgetBounds | packages/cache/src/index.ts:121-158 | the calls allowed in a stretch are bounded by what the counter leaves, from any state |
| RateLimit.AtMostTwiceTheLimit | packages/cache/src/index.ts:121-158 | a stretch of one window's length, wherever it starts, holds at most 2 * limit - 1 allowed calls |
| RateLimit.BurstReachesBound | packages/cache/src/index.ts:121-158 | for every limit and window some run reaches that bound |
| RateLimit.ResetTimeIsEnough | packages/cache/src/index.ts:95-96 | half a second after the reported reset time the window has ended and a call is allowed |
| RateLimit.SleepWithinBudget | packages/cache/src/index.ts:211-217 | each sleep keeps the total below the budget and half a second, and lasts a second unless it is the last |
| RateLimit.SleepsUntilReset | packages/cache/src/index.ts:211-217 | a sleep lasts until the reported reset or the end of the budget, whichever is first, and less than half a second longer |
| RateLimit.WaitOutRateLimit | packages/cache/src/index.ts:200-220 | the loop ends with the last check's result, sleeps only while it may, less than budget + 500 ms in total, and in at most one round per second of budget |
| Approval.ApprovalRegistry.Track | apps/vscode/src/approval-registry.ts:36-42 | an open request stays as it is; otherwise it opens and an earlier decision is dropped |
| Approval.ApprovalRegistry.Resolve | apps/vscode/src/approval-registry.ts:49-59 | the first answer decides, later ones are told what was decided, and unknown ones change nothing |
| Approval.ApprovalRegistry.ForgetSession | apps/vscode/src/approval-registry.ts:62-71 | exactly the open requests with the session's prefix are closed as denied |
| Approval.ApprovalRegistry.IsPending | apps/vscode/src/approval-registry.ts:82-84 | whether the request is open |
| Approval.RunsStayDisjoint | apps/vscode/src/approval-registry.ts:30-76 | in every run no request is both open and decided |
| Approval.EveryOpeningEndsOnce | apps/vscode/src/approval-registry.ts:8-11 | each tracking of a key yields at most one `resolved`: openings are decisions, abandonments and what is still open |
| Approval.DecisionStands | apps/vscode/src/approval-registry.ts:44-48 | a decision never flips, and every later answer reports it, until the request is tracked again or everything is cleared |
| Approval.FirstDecisionWins | apps/vscode/src/approval-registry.ts:44-71 | an open request gets the first answer, a denial if its session is forgotten first, and keeps it |
| Approval.UnknownExactly | apps/vscode/src/approval-registry.ts:44-52 | after any run an answer finds its request unknown if and only if that was not tracked since the last clearing |
| Approval.PrefixIsOwn | apps/vscode/src/approval-registry.ts:62-88 | without colons in session ids a key has a session's prefix only if it is that session's |
| Approval.ForgettingReaches | apps/vscode/src/approval-registry.ts:62-71 | forgetting one session reaches some request of another if and only if one id, joined with the separator, begins the other |
| Approval.KeysCollide | apps/vscode/src/approval-registry.ts:86-88 | two sessions have requests with the same key under exactly that condition |
| Approval.KeysApart | apps/vscode/src/approval-registry.ts:86-88 | otherwise a key belongs to one session and one call |
| Approval.ColonFreeNeverClash | apps/vscode/src/approval-registry.ts:86-88 | ids without colons never meet that condition |
| Approval.SingleColonsHarmless | apps/vscode/src/approval-registry.ts:86-88 | nor do ids such as `user:1` and `user:2` |
| Approval.ForgetsOwnRequests | apps/vscode/src/approval-registry.ts:61-71 | after any run whose session ids do not clash with it, forgetting a session closes exactly its own requests |
| Approval.AnswersOwnRequest | apps/vscode/src/approval-registry.ts:12-15 | after any such run an answer decides the request it names and leaves every other as it was |
| Approval.ColonsConfuse | apps/vscode/src/approval-registry.ts:86-88 | with a double colon in an id, forgetting one session denies a request of another |
| Approval.ColonsMisdirect | apps/vscode/src/approval-registry.ts:86-88 | and an answer for one session approves a request of another |

## Left out

- The real file system: directories, the path guard, the copy fallback of a move across devices, write failures, and moves of directories.
- Corrupt checkpoint files, the JSON form of a checkpoint, the sanitizing of ids in file names, and session ids that contain `__`: a checkpoint file is identified by its two ids.
- `sizeOnDisk`, `openTurn`, `pendingCount` and `alive`, which only read.
- A hash collision: SHA-256 is taken to be injective.
- Numbers beyond 2^53 in hunk headers and times: integers are unbounded. Overflow of the 32-bit array is covered by `RoundBounded`.
- UTF-16 code units: a character is a Dafny `char`, so `length`, `slice(0, 8000)` and the stream limit count characters.
- Paths that contain a line break: the round trip theorems, and the undo theorems where a text is rebuilt, are about paths of one line.
- Header overrides that contain a line break.
- The texts of error messages; which error is raised is modelled.
- Whether `git apply` accepts the patches: it is another program.
- UndoInvertsExactly: turns that touch a path again after moving a file there are left to `UndoInvertsAnyTurn`, whose condition is about the files as they are when a record's turn comes, and to `UndoInvertsTurn`.
- UnundoableTurnBlocks: a turn with entries that share a path, and whose undo changes files before it throws, is left out: undoing such entries again may take other steps than the first time, as `SwapUndoneTwice` shows.
- UndoIsAStack: one session writes the files, times increase and every turn can be reversed, as the property asks; `UndoSafety` covers other writers.
- Undo from a copy of a checkpoint whose file has been pruned or changed, apart from what the `Undo` method's contract says.
- Progress and other notifications, `notify`, the stderr tail, and framing by `consumeText`, which keeps nothing between chunks.
- A transport whose `writeMessage` throws at once, and a `teardown` that calls back into `handleClose` before `close` has finished.
- Message ids that `Number` turns into something other than an integer settle nothing, and which texts it turns into which integer is not modelled.
- HTTP, `fetch`, `TextDecoder`, Redis connections and retries, the rest of the provider adapters and `HttpMcpSession`.
- Window sizes that are not whole seconds, for which the script fails, and a Redis clock that runs backwards.
- The pub/sub half of the cache package, the manager of MCP clients, user interfaces and command lines.
