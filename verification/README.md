# Verified models of blueclaw

A Dafny model of the parts of blueclaw whose correctness is hardest to see from the code, with
proofs of what they keep, over every input, every run or every interleaving.

- **Paging** (`Paging.dfy`, `Lines.dfy`, `Utf8.dfy`): reading a file in pages of bytes or lines.
- **Editing** (`ApplyEdit.dfy` over `Matching.dfy`, `UnicodeEdit.dfy`, `WhitespaceEdit.dfy`,
  `LeadingEdit.dfy`, `EditOutcome.dfy`): the exact edit and the three tolerant ones behind it.
- **Patching** (`Patch.dfy`): many edits in memory, then all written or rolled back.
- **Messages in flight** (`MessageFlights.dfy`, `SettledRun.dfy`): one run per message, and
  waiting for a run to settle.
- **Deliveries** (`Deliveries.dfy`): reports on deliveries that are awaited.
- **Turn control and ledger** (`TurnControl.dfy`, `LedgerMirror.dfy`): steers, parking and
  cancelling of a turn, and the mirroring of an agent's records into the host's ledger.
- **Record index** (`RecordIndex.dfy`, `SharedIndex.dfy`): incremental listing behind a cursor, its
  refreshes, and the listings of several requesters into one index.
- **POSIX identities** (`IdentityTable.dfy`, `GroupHealing.dfy`): 32-bit IDs for users and groups,
  and giving content back to groups that changed.
- **Delivery memory** (`DeliveredMessages.dfy`): a map that has to agree with its log.
- **Shell words** (`ShellWords.dfy`): printing words as a command line, against a reader.

Objects whose methods update their fields are classes, and their methods are tied to functions
of the old state. Where several threads meet, those functions are the steps of a transition
system: one step is what happens under one hold of a lock or at one channel operation, and a
theorem about every run is a theorem about every interleaving. Where the source has an object, a
class beside the system performs its steps on that object (`Connection`, `Waits`, `Turn`,
`SharedLedger`). What the outside decides (clocks, write and command outcomes, answers of a
source, map iteration order) is a parameter or a step. `Options.dfy` holds the one shared
type and `Slices.dfy` facts about cutting sequences.

## What the code does not keep

Fifteen statements one would expect are false of the code. Each has an example and the exact
condition under which it holds.

- Paging with a bound below four bytes can stall: `Paging.ThreeBytesCanStall`,
  `Paging.ReadingCompletesIffRunesFit`.
- Reading by lines skips what is cut from a page: `Paging.LongLineIsSkipped`,
  `Paging.ReadingByLinesIsCompleteIff`.
- A count of one is not one match when the text overlaps itself, although the comments on the
  edit tool speak of a unique match: `Matching.CountIsOneWithTwoMatches`,
  `Matching.CountIsUniquenessIff`.
- An edit that several windows of lines fit is not refused, as several matches are in the other
  layers: `ApplyEdit.SeveralWindowsCanBeApplied`, `ApplyEdit.SeveralWindowsAreAppliedIff`.
- A failed patch restores the files only if the failing write left its own file alone and the
  rollback worked: `Patch.TornWriteIsNotPutBack`, `Patch.FailedPatchRestoresIff`.
- A patch that spells one file in two ways loses an edit: `Patch.TwoSpellingsLoseAnEdit`,
  `Patch.PatchIsTheFoldIff`; `Patch.HomeHasTwoSpellings` is a pair of such spellings.
- Two waits sharing a delivery ID can lose a report: `Deliveries.SharedIdCanLoseAReport`,
  `Deliveries.EveryInterleavingIsSafe` (its last clause is the condition).
- A cancellation can be in the ledger twice: `LedgerMirror.HostCanRaceACancellation`,
  `LedgerMirror.CancellationIsDoubledIff`.
- A record that the first question after its change finds stamped no later than the cursor is never listed:
  `RecordIndex.LateChangeIsMissed`, `RecordIndex.Catalog.ListIntoRecordIndex`.
- Two requesters' listings of one source can leave an older version of a record stored for good,
  with the newer one marked as held: `SharedIndex.CrossedStoresLoseAVersion`,
  `SharedIndex.EveryRunHoldsIff`; `SharedIndex.PassedByAllIsHeld` is what stores that are kept
  apart hold.
- New names need not get the least free ID, and IDs need not stay distinct:
  `IdentityTable.WithoutRoomAnIdCanBeGivenTwice`; `IdentityTable.EveryNewNameGetsTheLeastFreeIdIff`,
  `IdentityTable.OrderDoesNotMatterIff`, `IdentityTable.EveryOrderGivesADistinctIdIff` and
  `IdentityTable.EveryRunStaysDistinctIff`.
- Recovered IDs need not be distinct: `IdentityTable.SharedNumberIsRecoveredTwice`,
  `IdentityTable.ReserveKeepsDistinctIff`.
- A re-grouped directory can end in another group: `GroupHealing.DirectoryCanEndInAnotherGroup`,
  `GroupHealing.ChangedDirectoryEndsInItsGroupIff`, `GroupHealing.TopDownDirectoryEndsInItsGroupIff`.
- After a failed append the log and the map differ, and the next entry can be lost too:
  `DeliveredMessages.FailedAppendCanCostTheNext`, `DeliveredMessages.FileAgreesIff`.
- Writing a file in a directory whose name ends in a newline makes another directory:
  `ShellWords.WriteCanMakeAnotherDirectory`, `ShellWords.WriteMakesTheDirectoryIff`.

## Model

| member | source | states |
|---|---|---|
| `Paging.ReadingCompletesIffRunesFit` | internal/agentruntime/file_tools.go:557-654 | following `nextByte` from byte 0 reaches the end of a valid file if and only if no rune is wider than the output bound; the pages are valid UTF-8 within the bound and concatenate to the file |
| `Paging.FourBytesAlwaysSuffice` | internal/agentruntime/file_tools.go:557-654 | with a bound of at least 4 bytes every valid file is read completely, page by page, byte for byte |
| `Paging.ThreeBytesCanStall` | internal/agentruntime/file_tools.go:557-654 | with a bound of 3 bytes the file holding U+1F600 is never read to its end |
| `Paging.ByteWindowIsValid` | internal/agentruntime/file_tools.go:615-640 | a byte window asked for anywhere in valid text is a valid slice of it within the bound, cut at rune boundaries on both sides |
| `Paging.TruncationCutsWhereTheWindowDoes` | internal/agentruntime/file_tools.go:649-654 | shortening until the text is valid cuts where stepping back to a rune start does, for every cut of valid text |
| `Paging.StalledOnAWideRune` | internal/agentruntime/file_tools.go:615-640 | a page that makes no progress stands before a rune wider than the bound |
| `Paging.PagesJoinUp` | internal/agentruntime/file_tools.go:557-640 | from any rune boundary the pages that follow concatenate to exactly the rest shown, each valid and within the bound |
| `Paging.ReadingByLinesIsCompleteIff` | internal/agentruntime/file_tools.go:584-612 | asking on from `endLine + 1` shows all the lines of the file if and only if no window of as many lines as asked for is longer than the bound |
| `Paging.NoPageIsTruncatedIff` | internal/agentruntime/file_tools.go:584-612 | from any line on, no page is truncated if and only if every window of lines fits the bound |
| `Paging.LongLineIsSkipped` | internal/agentruntime/file_tools.go:584-612 | "ab" and "c" read line by line in one byte: the "b" is never shown |
| `Paging.LinePagesJoinUp` | internal/agentruntime/file_tools.go:584-612 | line windows from any line on join up to the lines from there, or are strictly shorter if one is truncated |
| `Paging.LinePageEndsTheFileIff` | internal/agentruntime/file_tools.go:584-612 | a page of lines says that it ends the file if and only if it shows all lines from its first one on |
| `Paging.SnapForwardToRuneBoundary` | internal/agentruntime/file_tools.go:642-647 | the loop finds the first rune start, or the end, at or after the index |
| `Paging.SnapBackToRuneBoundary` | internal/agentruntime/file_tools.go:649-654 | the loop finds the last rune start at or before the index, but not below the minimum |
| `Paging.TruncateTextByBytes` | internal/agentruntime/file_tools.go:977-990 | the loop keeps the longest valid prefix within the bound and says whether anything was cut; a bound of zero or less cuts nothing |
| `Lines.FileLinesJoinUp` | internal/agentruntime/file_tools.go:656-665 | an empty file has no lines; any other is its lines, none holding a newline, joined, and the newline it ends in if it ends in one |
| `Lines.SplitInvertsJoin` | internal/agentruntime/file_tools.go:1123-1157 | lines without newlines survive joining and splitting |
| `Lines.JoinInvertsSplit` | internal/agentruntime/file_tools.go:656-665 | text survives splitting and joining |
| `Utf8.EncodeInvertsDecode` | internal/agentruntime/file_tools.go:1197-1210 | converting valid UTF-8 to runes and back gives the same bytes (RFC 3629, sections 3 and 4) |
| `Utf8.DecodeInvertsEncode` | internal/agentruntime/file_tools.go:1197-1210 | encoding scalar values gives valid UTF-8 that decodes to them |
| `Utf8.CutIffRuneStart` | internal/agentruntime/file_tools.go:642-654 | valid text can be cut exactly where a byte is a rune start or at the end |
| `Utf8.MatchFallsOnBoundaries` | internal/agentruntime/file_tools.go:1197-1210 | valid text found inside valid text starts and ends at rune boundaries |
| `Utf8.TrimSpace` | internal/agentruntime/file_tools.go:1028-1032 | white space at both ends is taken off, and nothing is left exactly when there is nothing else |
| `Utf8.TrimSpaceTakesOffSpace` | internal/agentruntime/file_tools.go:1028-1032 | what is taken off is white space, and the rest stays together |
| `Utf8.IsSpaceIff` | internal/agentruntime/file_tools.go:1229-1232 | the runes that count as white space, one by one |
| `Matching.CountIsOneIff` | internal/agentruntime/file_tools.go:1050-1073 | a count of 1 means a leftmost match with no match at or after its end |
| `Matching.CountIsTheLeftmost` | internal/agentruntime/file_tools.go:1050-1073 | the count is the number of matches found one after the other from the left, each after the end of the one before |
| `Matching.CountIsOneMeansUnique` | internal/agentruntime/file_tools.go:1050-1073 | for a text that does not overlap itself a count of 1 is true uniqueness |
| `Matching.CountIsOneWithTwoMatches` | internal/agentruntime/file_tools.go:1050-1073 | "aa" counts once in "aaa" and matches twice |
| `Matching.OverlappingCopies` | internal/agentruntime/file_tools.go:1050-1073 | every text that overlaps itself counts once, and matches twice, in its two overlapping copies |
| `Matching.CountIsUniquenessIff` | internal/agentruntime/file_tools.go:1050-1073 | a count of 1 means exactly one match, in every content, if and only if the text does not overlap itself |
| `UnicodeEdit.UnicodeEditReplacesTheSoleLookAlike` | internal/agentruntime/file_tools.go:1197-1226 | on valid content the edit applies if and only if one span of whole runes normalises to the normalised old text, and replaces exactly that span, whatever the byte lengths |
| `UnicodeEdit.CountOfRunes` | internal/agentruntime/file_tools.go:1197-1210 | one match in the normalised bytes is one match in the normalised runes, in both directions |
| `UnicodeEdit.PlainRuneIff` | internal/agentruntime/file_tools.go:1212-1226 | the runes taken for a plain quote, double quote, hyphen and space are exactly those listed, and every other is taken for itself |
| `UnicodeEdit.RuneMatchIsLookAlike` | internal/agentruntime/file_tools.go:1197-1226 | a match of normalised runes is a span of the original that normalises to the normalised old text, with the bytes before and after it unchanged |
| `UnicodeEdit.LookAlikeIsRuneMatch` | internal/agentruntime/file_tools.go:1197-1226 | and every such span is a match of normalised runes |
| `WhitespaceEdit.WhitespaceEditReplacesTheSoleSpan` | internal/agentruntime/file_tools.go:1081-1098 | the edit applies if and only if the old text is not blank and one span of whole runs collapses to the collapsed old text; it replaces that span and keeps every other byte |
| `WhitespaceEdit.CollapseInlineWhitespace` | internal/agentruntime/file_tools.go:1100-1121 | the loop computes the collapsed text and the table of offsets, one per collapsed byte and one for the end |
| `WhitespaceEdit.OffsetsIncrease` | internal/agentruntime/file_tools.go:1100-1121 | the offset table is strictly increasing |
| `WhitespaceEdit.SliceCollapses` | internal/agentruntime/file_tools.go:1100-1121 | the bytes between two offsets collapse to the collapsed bytes between their positions |
| `WhitespaceEdit.CutIsInTheTable` | internal/agentruntime/file_tools.go:1100-1121 | every cut between runs is in the table, where its collapsed prefix ends |
| `WhitespaceEdit.CollapseAlikeIff` | internal/agentruntime/file_tools.go:1100-1121 | two texts collapse alike if and only if they hold the same bytes other than spaces and tabs, with some spacing in the same places |
| `LeadingEdit.LeadingEditReplacesTheOnlyWindow` | internal/agentruntime/file_tools.go:1123-1157 | the edit applies if and only if the old lines match one window of the file and no other: the same text between spaces and tabs and, unless blank, the same indentation behind one prefix, less the least indentation of both texts; the updated file's lines are then those before the window, the new lines, each behind the prefix and less that indentation unless it is blank, and those after the window |
| `LeadingEdit.LineMatchesIff` | internal/agentruntime/file_tools.go:1159-1187 | a line of the file fits the outdented old line if and only if it matches the old line itself |
| `LeadingEdit.PartsAreOne` | internal/agentruntime/file_tools.go:1159-1195 | a line is its indentation, its core and what trails it in one way only |
| `LeadingEdit.LeastIndentIsCommon` | internal/agentruntime/file_tools.go:1228-1243 | the common indentation is the one number that is least among the indentations of the lines that are not blank, or zero if all are |
| `LeadingEdit.MatchWindowIff` | internal/agentruntime/file_tools.go:1159-1187 | a window yields a prefix if and only if that prefix fits every line of it |
| `LeadingEdit.PrefixIsCommonIndentation` | internal/agentruntime/file_tools.go:1159-1187 | the prefix is made of spaces and tabs and begins every non-blank line of the window |
| `LeadingEdit.OneStartIffOnlyWindow` | internal/agentruntime/file_tools.go:1123-1157 | one start found is one window that fits, in both directions |
| `LeadingEdit.LeastIndentIs` | internal/agentruntime/file_tools.go:1228-1243 | the common indentation is the least over the non-blank lines, and absent exactly when all are blank |
| `LeadingEdit.MatchButForLeadingWhitespace` | internal/agentruntime/file_tools.go:1159-1187 | the two loops over a window compute its prefix, or none |
| `LeadingEdit.PrefixOfWindow` | internal/agentruntime/file_tools.go:1167-1187 | the second loop accepts exactly one prefix, or none needed |
| `LeadingEdit.MinCommonLeadingWhitespace` | internal/agentruntime/file_tools.go:1228-1243 | the loop computes the common indentation |
| `LeadingEdit.ReindentReplacement` | internal/agentruntime/file_tools.go:1123-1157 | each replacement line is itself if it is blank, and otherwise the prefix followed by it |
| `LeadingEdit.ReplacePartWithMissingLeadingWhitespace` | internal/agentruntime/file_tools.go:1123-1157 | the loop over windows computes the edit whose meaning is stated above |
| `ApplyEdit.EditReplacesOnePlace` | internal/agentruntime/file_tools.go:1050-1073 | on valid content an edit applies if and only if some layer finds one place in its turn, and it replaces that place only; the exact and the look-alike layer pass the turn on only when they found none, the layer of lines also when it found several |
| `ApplyEdit.SeveralWindowsAreAppliedIff` | internal/agentruntime/file_tools.go:1050-1073 | a text not found as it is, that several windows of lines fit, is applied all the same if and only if one span looks like it, or none does, it is not blank and one span differs in spacing only |
| `ApplyEdit.SeveralWindowsCanBeApplied` | internal/agentruntime/file_tools.go:1050-1073 | "x " fits the first two of the lines "x", "x", "x", no-break space, "y", and is replaced in the third |
| `ApplyEdit.EditKeepsValid` | internal/agentruntime/file_tools.go:1050-1073 | whichever layer answers, editing valid UTF-8 by valid UTF-8 gives valid UTF-8 |
| `ApplyEdit.WhitespaceSpanIsValid` | internal/agentruntime/file_tools.go:1081-1098 | the span the whitespace layer replaces starts and ends at rune boundaries |
| `Patch.PatchFile` | internal/agentruntime/file_tools.go:992-1012 | a patch that fails validation names the first failing edit and writes nothing; otherwise every edit applies to the fold of the edits before it by the same path, and the files are what writing those folds in the order of the paths leaves, or the rollback after the first write that fails |
| `Patch.FailedPatchRestoresIff` | internal/agentruntime/file_tools.go:1368-1384 | when a write fails and each path stands for a file of its own, the files are what they were if and only if the failed write left its own file alone and each rollback write restored its file or had nothing to restore |
| `Patch.DoneRollbackRestoresIff` | internal/agentruntime/file_tools.go:1368-1384 | however paths are spelled, a rollback whose writes are all done restores the files if and only if the failed write left its file alone or an earlier path stood for that same file |
| `Patch.PatchIsTheFoldIff` | internal/agentruntime/file_tools.go:1027-1048 | patches by given paths all leave each named file with the in-order fold of its edits, and every other file alone, if and only if no two of the paths stand for one file |
| `Patch.SpelledOnceIsTheFold` | internal/agentruntime/file_tools.go:1027-1048 | one patch does so when its own paths are spelled once |
| `Patch.TwoSpellingsLoseAnEdit` | internal/agentruntime/file_tools.go:1334-1366 | for any two spellings of one file there is a patch of two edits that all apply and of which the first is lost |
| `Patch.HomeHasTwoSpellings` | internal/agentruntime/requester_shell.go:45-64 | a path and the same path behind a tilde stand for one file in a shell that starts in the home directory |
| `Patch.PatchIsLoaded` | internal/agentruntime/file_tools.go:1334-1366 | the writes of a patch start from the contents the files have, and paths spelled once each stand for a file of their own |
| `Patch.AllApplyIsComplete` | internal/agentruntime/file_tools.go:1334-1366 | when all edits apply, every path named is a file and has a content to be written |
| `Patch.PathOrderHolds` | internal/agentruntime/file_tools.go:1334-1366 | each path that is named is in the order of writing exactly once |
| `Patch.PathOrderIsByFirstNaming` | internal/agentruntime/file_tools.go:1334-1366 | paths are written in the order in which they are first named |
| `Patch.EditAppliesIff` | internal/agentruntime/file_tools.go:1027-1048 | an edit is accepted if and only if its path is not blank, its old text not empty, its file there, of at most two megabytes, valid and without NUL, and some layer finds its one place in what the edits before it made of the file |
| `Patch.TornWriteIsNotPutBack` | internal/agentruntime/file_tools.go:1368-1384 | a failed write that leaves other bytes in its own file is not put back |
| `Patch.PatchedContentIsValid` | internal/agentruntime/file_tools.go:1027-1048 | only valid UTF-8 is ever written for valid edits |
| `Patch.OutcomeIsPatched` | internal/agentruntime/file_tools.go:1368-1378 | what the state holds after validation is the fold of the edits, as far as the writes can tell |
| `Patch.FilePatchState.constructor` | internal/agentruntime/file_tools.go:1020-1025 | a new state holds nothing |
| `Patch.FilePatchState.LoadEditableFile` | internal/agentruntime/file_tools.go:1334-1366 | a file is loaded once, if it is there, small enough, valid UTF-8 and without NUL; otherwise nothing changes |
| `Patch.FilePatchState.ValidatePatchEdit` | internal/agentruntime/file_tools.go:1027-1048 | an edit is accepted exactly when it applies to the fold so far, and then the state holds the fold with it |
| `Patch.Workspace.RollbackPatchWrites` | internal/agentruntime/file_tools.go:1380-1384 | the rollback rewrites the original content of each written path, in order, whatever each write does |
| `Patch.Workspace.WritePatchState` | internal/agentruntime/file_tools.go:1368-1378 | paths are written in order until one write fails, then rolled back |
| `MessageFlights.EveryInterleavingIsSafe` | internal/acpsession/message_run.go:37-61 | from any store with at most one run per message, in every interleaving at most one prompt holds a key, a release deletes its own entry and closes an open channel, each waiter's channel is closed or owed, and no message has two runs |
| `MessageFlights.EveryPromptIsAnswered` | internal/acpsession/agent.go:245-276 | in every interleaving a prompt that returned has launched once or answered once from a run that is there, one without a message has launched, only a cancelled one gave up, and a message whose prompt returned has its run unless that prompt's own launch recorded none |
| `MessageFlights.RunsAreTheLaunches` | internal/acpsession/agent.go:252-276 | the store holds the runs it held and those the launches recorded, and no others |
| `MessageFlights.EveryScheduleFinishes` | internal/acpsession/agent.go:245-276 | n prompts take at most 8n² + 8n steps under any schedule, and a schedule that cannot go on has let every prompt return or give up |
| `MessageFlights.NoDeadlock` | internal/acpsession/message_run.go:37-61 | while a prompt is not over, some step other than giving up is possible |
| `MessageFlights.StepKeepsInv` | internal/acpsession/message_run.go:37-86 | every step of claim, release, launch and lookup keeps the invariant behind those claims |
| `MessageFlights.StepShrinksMeasure` | internal/acpsession/message_run.go:37-61 | every step brings all prompts together nearer to their end |
| `MessageFlights.FlightTable.constructor` | internal/acpsession/message_run.go:33-35 | a new table has nothing in flight |
| `MessageFlights.FlightTable.Claim` | internal/acpsession/message_run.go:37-54 | the section under the lock registers a new channel or hands out the one registered |
| `MessageFlights.FlightTable.Delete` | internal/acpsession/message_run.go:56-60 | releasing removes the key |
| `MessageFlights.FlightTable.Close` | internal/acpsession/message_run.go:60-61 | and closes the channel, which must still be open |
| `MessageFlights.Connection.constructor` | internal/acpsession/agent.go:233-276 | a connection opens with nothing in flight and the store as it is |
| `MessageFlights.Connection.Wait` | internal/acpsession/message_run.go:37-54 | claiming, waking and giving up, done on the table, are the steps of the theorems |
| `MessageFlights.Connection.Hold` | internal/acpsession/agent.go:245-276 | looking, launching, answering and releasing, done on the table, are the steps of the theorems |
| `MessageFlights.Connection.Perform` | internal/acpsession/agent.go:245-276 | whichever prompt moves next, the invariant holds and no channel is closed twice |
| `SettledRun.NeverSleepsThroughSettlement` | internal/acpsession/message_run.go:97-129 | whenever the waiter is blocked and the stored run waits for a person or has ended, and was not cut short by a restart, a token is present or a notification is still to come |
| `SettledRun.EveryAnswerWasFound` | internal/acpsession/message_run.go:97-136 | the wait ends with a run if and only if a look at the store found that run settled, or found none and it is the run that was given; and it is cancelled if and only if its context was |
| `SettledRun.TokenIff` | internal/acpsession/message_run.go:101-129 | the channel holds a token if and only if a transition of its own run was heard since the token was last taken |
| `SettledRun.SettledWaiterIsReleased` | internal/acpsession/message_run.go:97-129 | a waiter blocked on a settled run answers with it after the pending notifications and two steps |
| `SettledRun.StepKeepsHearing` | internal/acpsession/message_run.go:97-129 | no step of the store, the notifier or the waiter lets the waiter go deaf |
| `Deliveries.EveryInterleavingIsSafe` | internal/acpsession/delivery.go:66-98 | in every interleaving each channel receives at most one outcome, settling never blocks with the lock held, an outcome heard was sent on the waiter's channel, and a report reaches an unanswered waiter exactly when its ID is not blank and no other use of the ID disturbed it |
| `Deliveries.EveryAnswerIsAccountedFor` | internal/acpsession/delivery.go:180-204 | a wait that was not forgotten has an answer if and only if a step of its own ended it so: with the outcome sent on its channel, with none at the end of asking if none was sent, or given up |
| `Deliveries.RegistrationsAreOwned` | internal/acpsession/delivery.go:66-83 | every registration is of a wait that was not forgotten, under its own ID; once all are, none is left |
| `Deliveries.NamesNoDeliveryIff` | internal/acpsession/delivery.go:85-88 | an ID names no delivery exactly when it is all white space |
| `Deliveries.ReachableIff` | internal/acpsession/delivery.go:85-98 | a report by a waiter's ID reaches its channel exactly when the ID is registered for that channel and not blank |
| `Deliveries.SettledBeforeAskingEndedIsReturned` | internal/acpsession/delivery.go:180-204 | on the asking-ended branch an outcome is returned if and only if it was settled before |
| `Deliveries.UniqueIdsLoseNoReport` | internal/acpsession/delivery.go:66-98 | with IDs that no two waiters share every report on an unanswered wait reaches it |
| `Deliveries.SharedIdCanLoseAReport` | internal/acpsession/delivery.go:66-98 | with a shared ID a report can be lost |
| `Deliveries.StepKeepsInv` | internal/acpsession/delivery.go:66-98 | every step keeps the invariant behind those claims |
| `Deliveries.AwaitedDeliveries.constructor` | internal/acpsession/delivery.go:62-64 | nothing is awaited at first |
| `Deliveries.AwaitedDeliveries.ExpectDelivery` | internal/acpsession/delivery.go:71-77 | a new buffered channel is registered for the ID |
| `Deliveries.AwaitedDeliveries.Forget` | internal/acpsession/delivery.go:79-83 | the ID is removed, whoever registered it |
| `Deliveries.AwaitedDeliveries.Settle` | internal/acpsession/delivery.go:85-98 | an ID that names a registered delivery gets the outcome and is removed; any other is refused |
| `Deliveries.Waits.constructor` | internal/acpsession/delivery.go:62-64 | the waits of an agent start with nothing awaited |
| `Deliveries.Waits.Take` | internal/acpsession/delivery.go:180-204 | an outcome that is there is taken, whichever way the wait ended |
| `Deliveries.Waits.Perform` | internal/acpsession/delivery.go:66-98 | whoever moves next, the objects do the step of the theorems, and no report blocks |
| `TurnControl.EveryTurnIsControlled` | internal/acpharness/turn_control.go:88-167 | in every interleaving prompts after the first are steers in arrival order, each once; none after parking is noted; the conversation ends without error only parked or with the queue empty at its check; tool calls cancel at most once, and only a parked turn; each queued steer cancels once beside that |
| `TurnControl.OneCancelIff` | internal/acpharness/turn_control.go:98-108 | in every interleaving one tool call cancels if and only if some tool call that read the run parked locked the control after parking was noted; every read is one tool call that has locked the control or has yet to |
| `TurnControl.EveryParkingIsNoted` | internal/acpharness/turn_control.go:79-96 | every event outside mirroring is followed up, every look at the parked run is noted or about to be, and parking is noted exactly by these; what a look sees is the status set last |
| `TurnControl.EveryReturnIsChecked` | internal/acpharness/turn_control.go:155-167 | every prompt that comes back is followed by one look for a steer, which prompts one or finishes; the conversation fails exactly when a prompt does |
| `TurnControl.LeftoverSteers` | internal/acpharness/turn_control.go:122-167 | steers not prompted are exactly those still queued |
| `TurnControl.ParkingWasSeen` | internal/acpharness/turn_control.go:79-96 | parking is noted only after an event seen while nothing was mirrored and then a look at the store at which the run was parked |
| `TurnControl.TurnControls.constructor` | internal/acpharness/turn_control.go:67-73 | a turn starts unparked with no steers |
| `TurnControl.TurnControls.NoteParking` | internal/acpharness/turn_control.go:88-96 | the section that marks the turn parked |
| `TurnControl.TurnControls.ToolCallEnded` | internal/acpharness/turn_control.go:98-108 | a tool call that ends cancels once, when the run is still parked |
| `TurnControl.TurnControls.Queue` | internal/acpharness/turn_control.go:122-132 | a steer goes to the end of the queue |
| `TurnControl.TurnControls.TakeSteer` | internal/acpharness/turn_control.go:144-153 | the first steer is taken, unless the turn is parked |
| `TurnControl.Turn.constructor` | internal/acpharness/turn_control.go:67-73 | a turn starts as the theorems start it |
| `TurnControl.Turn.Observe` | internal/acpharness/turn_control.go:79-96 | what a parking event sets off, done on the control, is the step of the theorems |
| `TurnControl.Turn.EndToolCall` | internal/acpharness/turn_control.go:98-108 | so is the end of a tool call |
| `TurnControl.Turn.Converse` | internal/acpharness/turn_control.go:122-167 | so are a steer's arrival and the conversation's moves |
| `TurnControl.Turn.Perform` | internal/acpharness/turn_control.go:79-167 | whatever thread moves next, the turn goes where the theorems follow it |
| `LedgerMirror.LedgerIsTheFilteredHistory` | internal/acpharness/ledger_exchange.go:125-159 | for every interleaving of host events and handed-over records the ledger is the host's events shuffled with exactly the records the history keeps: the first of each non-zero position, no skipped name, no cancellation already recorded |
| `LedgerMirror.IsCancellationIff` | internal/acpharness/ledger_exchange.go:137-140 | a cancellation is named from the tool prefix on and to the suffix for cancelled |
| `LedgerMirror.PositionIsKeptOnce` | internal/acpharness/ledger_exchange.go:150-159 | no two records of one position are kept |
| `LedgerMirror.PositionIsKept` | internal/acpharness/ledger_exchange.go:125-159 | a position handed over is kept, unless its first record is a cancellation already told |
| `LedgerMirror.CancellationIsDoubledIff` | internal/acpharness/ledger_exchange.go:125-148 | when the mirror appends a cancellation the ledger already holds it if and only if the host appended it after the mirror looked |
| `LedgerMirror.HostCanRaceACancellation` | internal/acpharness/ledger_exchange.go:125-148 | and that can happen |
| `LedgerMirror.Mirror.constructor` | internal/acpharness/ledger_exchange.go:117-119 | a mirror starts having taken nothing |
| `LedgerMirror.Mirror.HostRecordedTheCancellation` | internal/acpharness/ledger_exchange.go:137-148 | the loop finds whether the ledger holds the cancellation, by name and observation |
| `LedgerMirror.Mirror.TookThePositionAlready` | internal/acpharness/ledger_exchange.go:150-159 | a non-zero position is remembered, and reported if it was before |
| `LedgerMirror.Mirror.Take` | internal/acpharness/ledger_exchange.go:125-135 | one record is appended or left out |
| `LedgerMirror.Mirror.Decide` | internal/acpharness/ledger_exchange.go:125-133 | whether a record is taken, and the position it leaves remembered |
| `LedgerMirror.Mirror.AppendTaskEvent` | internal/acpharness/ledger_exchange.go:134-134 | the event goes to the end of the ledger |
| `LedgerMirror.SharedLedger.constructor` | internal/acpharness/ledger_exchange.go:117-119 | the shared ledger starts empty |
| `LedgerMirror.SharedLedger.Perform` | internal/acpharness/ledger_exchange.go:125-135 | whoever appends next, mirror or host, the ledger goes where the theorems follow it |
| `RecordIndex.Catalog.ListIntoRecordIndex` | internal/agentruntime/record_index_refresh.go:56-89 | the listing ends, and at every exit, errors included, of the records up to the returned cursor exactly those are not held as they are whose stamp is no later than the cursor at the first question after they changed, while a page was being held or at any other time; without an error no others are left out; an undisturbed listing has no error; the cursor never goes back; with stamps that increase nothing is missed |
| `RecordIndex.Catalog.HoldPage` | internal/agentruntime/record_index_refresh.go:72-81 | the inner loop moves the cursor only over what is held |
| `RecordIndex.Catalog.HoldRecord` | internal/memory/record_index.go:48-58 | a record is stored unless that version is held; a failed store changes nothing |
| `RecordIndex.ChangesKeepSound` | internal/agentruntime/record_index_refresh.go:56-89 | changes of any stamp to the source while a listing runs, or between two, leave unheld behind the cursor exactly those stamped no later than it |
| `RecordIndex.IncreasingIsNotMissed` | internal/agentruntime/record_index_refresh.go:56-89 | changes stamped later than all before are later than the cursor, so none is missed |
| `RecordIndex.LateChangeIsMissed` | internal/agentruntime/record_index_refresh.go:56-89 | a record stamped before the cursor is not held and not answered again |
| `RecordIndex.AnswerIsAGoodPage` | internal/agentruntime/record_index_refresh.go:56-89 | a page answered strictly after the cursor, in order, leaves no record out between its entries |
| `RecordIndex.FewerLeft` | internal/agentruntime/record_index_refresh.go:83-88 | a page that moves the cursor leaves fewer records after it |
| `RecordIndex.RefreshedIndex.constructor` | internal/agentruntime/record_index_refresh.go:37-55 | a new index agrees with its source up to the start |
| `RecordIndex.RefreshedIndex.RefreshRecordIndex` | internal/agentruntime/record_index_refresh.go:37-55 | refresh after refresh, failing ones included, the next starts where nothing is missing but what was missed; a due refresh that reports no failure has everything else |
| `RecordIndex.RefreshedIndex.SourceChanges` | internal/agentruntime/record_index_refresh.go:37-55 | changes between refreshes keep that, and are missed exactly when stamped no later than the cursor and not held already |
| `SharedIndex.EveryRunHoldsIff` | internal/memory/record_index.go:48-58 | with the check, the store and the mark of a record as steps of their own, every interleaving of listings, failures and changes stores what all who see it have come past, if and only if no record is seen by two listings |
| `SharedIndex.CrossedStoresLoseAVersion` | internal/memory/record_index.go:48-58 | for any two listings that see a record there is a run after which all have come past its newer version, and an older one is stored |
| `SharedIndex.PassedByAllIsHeld` | internal/memory/record_index.go:48-58 | when no listing stores a record while another is between storing and marking it, or gives up between the two, a record that somebody sees is stored as it is once every listing that sees it has come past it |
| `SharedIndex.SeenByOneHolds` | internal/memory/record_index.go:48-58 | the same for every run when each record is seen by one listing, failures between storing and marking included |
| `SharedIndex.PassedByAllIsMarked` | internal/memory/record_index.go:113-132 | in every run, a record that somebody sees is marked with its latest version once every listing that sees it has come past it |
| `SharedIndex.OverwrittenByALaterComer` | internal/memory/record_index.go:48-58 | with stores kept apart, a version that a listing has come past and that is not stored is still ahead of another listing that sees it |
| `SharedIndex.SlowListingOverwrites` | internal/memory/record_index.go:48-58 | even then a slow listing puts an older version over a newer one that another has come past |
| `SharedIndex.NothingLeftIsPast` | internal/agentruntime/record_index_refresh.go:56-89 | when no listing has anything left to ask for, all have come past everything they see |
| `SharedIndex.MoveKeepsInv` | internal/agentruntime/record_index_refresh.go:56-89 | every change, question, check, store, mark and failure keeps all pages in order and complete up to their ends, and marks what all have passed |
| `RecordIndex.RecordIndexRefreshes.constructor` | internal/agentruntime/record_index_refresh.go:32-35 | no requester is known at first |
| `RecordIndex.RecordIndexRefreshes.Begin` | internal/agentruntime/record_index_refresh.go:91-110 | the failure is handed out and cleared; a listing starts when none runs and the interval is over |
| `RecordIndex.RecordIndexRefreshes.Finish` | internal/agentruntime/record_index_refresh.go:112-121 | the cursor, and a failure if any, are stored |
| `RecordIndex.OneListingPerKey` | internal/agentruntime/record_index_refresh.go:91-121 | over all interleavings at most one listing per key runs, and the table marks it |
| `RecordIndex.StartsAreApart` | internal/agentruntime/record_index_refresh.go:91-110 | any two listings of one key start at least five minutes apart |
| `RecordIndex.BeginsAListingIff` | internal/agentruntime/record_index_refresh.go:91-110 | in every run a call begins a listing if and only if none of its key is running and every one begun before was begun at least five minutes before |
| `RecordIndex.FailureIsReportedNext` | internal/agentruntime/record_index_refresh.go:91-121 | a failure is reported by the next begin of its key: none is lost or overwritten |
| `RecordIndex.ReportCameFromAFinish` | internal/agentruntime/record_index_refresh.go:91-121 | a reported failure is that of a listing finished since the begin before: none is reported twice |
| `RecordIndex.CursorIsCarriedOver` | internal/agentruntime/record_index_refresh.go:91-121 | a listing starts from where the last one of its key got to |
| `IdentityTable.EveryNewNameGetsTheLeastFreeIdIff` | cmd/blueclaw-posix-helper/main.go:508-530 | over any sequence of calls and any map order, each new name gets the least unreserved ID above all allocated ones if and only if the names added are no more than the unreserved IDs above the first start |
| `IdentityTable.IdsStayDistinct` | cmd/blueclaw-posix-helper/main.go:508-530 | then distinct IDs stay distinct |
| `IdentityTable.EveryRunStaysDistinctIff` | cmd/blueclaw-posix-helper/main.go:508-530 | every run whatever, however long and in whatever map order, keeps distinct IDs distinct if and only if each allocated ID is reserved |
| `IdentityTable.ReservedStaysDistinct` | cmd/blueclaw-posix-helper/main.go:508-530 | from a table whose allocated IDs are reserved every run keeps both |
| `IdentityTable.UnreservedIdIsGivenAgain` | cmd/blueclaw-posix-helper/main.go:508-530 | from any other, new names come upon an allocated ID in the end |
| `IdentityTable.EveryOrderGivesADistinctIdIff` | cmd/blueclaw-posix-helper/main.go:508-530 | one new name gets an ID of its own in every map order if and only if from no candidate that an order can give does the search end at an allocated ID |
| `IdentityTable.PossibleCandidateIff` | cmd/blueclaw-posix-helper/main.go:519-525 | the candidates that some order gives: the start; or, the last ID being allocated, 0 and one more than each other allocated ID |
| `IdentityTable.RoomOrReservedIsUnallocated` | cmd/blueclaw-posix-helper/main.go:519-530 | room above the start, or allocated IDs that are all reserved, is enough for that |
| `IdentityTable.AllocationsOnlyGrow` | cmd/blueclaw-posix-helper/main.go:508-517 | no allocated ID ever changes |
| `IdentityTable.AnswersNeverChange` | cmd/blueclaw-posix-helper/main.go:508-517 | what a call answers is what the name keeps |
| `IdentityTable.NewNameIsGivenTheLeastFreeIdIff` | cmd/blueclaw-posix-helper/main.go:508-530 | one call gives a new name the least unreserved ID from max(100000, largest + 1) up if and only if there is one |
| `IdentityTable.GivingTakesOneFromTheRoom` | cmd/blueclaw-posix-helper/main.go:508-530 | giving an ID moves the start just past it and takes exactly one ID from the room |
| `IdentityTable.EnoughRoomIsEnough` | cmd/blueclaw-posix-helper/main.go:508-530 | from distinct IDs, with the start, the number of reserved IDs and the names added together within 2^32, every call gives the least free ID and all IDs end distinct |
| `IdentityTable.RoomIsAtLeast` | cmd/blueclaw-posix-helper/main.go:519-530 | the room is at least 2^32 less the start and the number of reserved IDs |
| `IdentityTable.CandidateIsTheStartIff` | cmd/blueclaw-posix-helper/main.go:519-525 | the loop over the map finds max(100000, largest + 1) if and only if the last 32-bit ID is not allocated |
| `IdentityTable.OrderDoesNotMatterIff` | cmd/blueclaw-posix-helper/main.go:519-525 | the map order does not matter if and only if the last ID is not allocated, or nothing else is |
| `IdentityTable.WithoutRoomAnIdCanBeGivenTwice` | cmd/blueclaw-posix-helper/main.go:508-530 | with the usual system IDs reserved and the last ID allocated, a new name can be given an ID another name has |
| `IdentityTable.ReserveRecovers` | cmd/blueclaw-posix-helper/main.go:490-506 | reserving recovers exactly the first qualifying identity of each unallocated name, changes no ID and reserves every listed one |
| `IdentityTable.ReserveKeepsDistinctIff` | cmd/blueclaw-posix-helper/main.go:490-506 | distinct IDs stay distinct if and only if no recovered identity shares its ID with another or with an allocated name |
| `IdentityTable.DirtyIffChanged` | cmd/blueclaw-posix-helper/main.go:490-543 | from what was stored, over the system's groups and users and any run of calls, the table is dirty, and so is stored again, if and only if its allocations differ from what was stored |
| `IdentityTable.SharedNumberIsRecoveredTwice` | cmd/blueclaw-posix-helper/main.go:490-506 | a group and a user of one number are recovered under two names |
| `IdentityTable.IdentityAllocationTable.constructor` | cmd/blueclaw-posix-helper/main.go:450-455 | a table starts from the stored allocations |
| `IdentityTable.IdentityAllocationTable.RecoverProjectedAllocation` | cmd/blueclaw-posix-helper/main.go:497-506 | an identity is recovered when its ID and name qualify and the name has no ID |
| `IdentityTable.IdentityAllocationTable.Reserve` | cmd/blueclaw-posix-helper/main.go:490-495 | the loop reserves and recovers each identity in turn |
| `IdentityTable.IdentityAllocationTable.NextFreeID` | cmd/blueclaw-posix-helper/main.go:519-530 | the loops find the first unreserved ID, going round after the last, from the candidate the map order gives |
| `IdentityTable.IdentityAllocationTable.IdFor` | cmd/blueclaw-posix-helper/main.go:508-517 | a known name keeps its ID; a new one is given the next free ID, which is reserved |
| `GroupHealing.EveryChangedDirectoryIsReached` | cmd/blueclaw-posix-helper/main.go:721-746 | every directory of a changed group is re-grouped, or the names of a re-grouped directory of its group are the first of its own names |
| `GroupHealing.NoRegroupedLiesUnderAnother` | cmd/blueclaw-posix-helper/main.go:721-746 | no re-grouped directory lies under another of its group, by their names |
| `GroupHealing.CommandsAre` | cmd/blueclaw-posix-helper/main.go:721-746 | commands are run for exactly the directories of changed groups that have no directory of their group above them, by their names |
| `GroupHealing.LiesUnderIff` | cmd/blueclaw-posix-helper/main.go:741-741 | the test for lying under another holds if and only if the other's names between slashes are the first of the path's own, and not all |
| `GroupHealing.ReachesIff` | cmd/blueclaw-posix-helper/main.go:729-731 | a recursive command reaches exactly the paths whose first names are its own |
| `GroupHealing.LongerNameIsNotUnder` | cmd/blueclaw-posix-helper/main.go:741-741 | a name that goes on where another ends does not lie under it |
| `GroupHealing.CommandsPerDirectory` | cmd/blueclaw-posix-helper/main.go:721-734 | a re-grouped directory gets a command for each time it is listed, and no other gets one |
| `GroupHealing.ChangedDirectoryEndsInItsGroupIff` | cmd/blueclaw-posix-helper/main.go:721-746 | in whatever order directories are listed, one of a changed group ends in its group if and only if the topmost of its group at or above it is listed, at some place, after every re-grouped directory of another group at or above it |
| `GroupHealing.TopDownDirectoryEndsInItsGroupIff` | cmd/blueclaw-posix-helper/main.go:721-746 | listed from the top down, one group to a path, it does if and only if no re-grouped directory of another group lies at or above it and under the topmost of its own group |
| `GroupHealing.TopmostIsRegrouped` | cmd/blueclaw-posix-helper/main.go:721-746 | the command of its group that reaches a directory of a changed group is that of the topmost of its group, and of no other |
| `GroupHealing.UnmixedDirectoriesEndInTheirGroups` | cmd/blueclaw-posix-helper/main.go:721-746 | a directory at or under none of another, changed group ends in its own group |
| `GroupHealing.DirectoryCanEndInAnotherGroup` | cmd/blueclaw-posix-helper/main.go:721-746 | a directory left to one above it can end in the group of one in between |
| `GroupHealing.HealChangedGroupContent` | cmd/blueclaw-posix-helper/main.go:721-734 | the loop issues the commands of the re-grouped directories in order, and stops at the first that fails |
| `GroupHealing.DirectoryIsCoveredByAncestor` | cmd/blueclaw-posix-helper/main.go:736-746 | the loop finds whether a directory of the same group lies above |
| `DeliveredMessages.CompleteEntryIsRememberedIff` | chatd/src/delivered-messages.ts:19-52 | over any run of records, failing appends and restarts with clocks that do not go back, the same ID recorded again included, an ID that had a complete line is remembered if and only if its entry is inside the horizon of the latest restart, or it was recorded anew and no restart came since, or it was recorded anew onto a file ending in a newline, by an append that was done or lacked only its newline with no further append before the next restart, and the latest restart found it recent |
| `DeliveredMessages.LineIsFoundIff` | chatd/src/delivered-messages.ts:35-52 | the first restart after a new record finds its line if and only if the file ended in a newline and the append was done, or lacked only its newline and nothing was appended before the restart |
| `DeliveredMessages.KeptIffByItsAppends` | chatd/src/delivered-messages.ts:35-52 | so whether a record is kept is settled by the outcomes of its appends and the times of the restarts |
| `DeliveredMessages.CompleteEntryStays` | chatd/src/delivered-messages.ts:19-52 | an entry with a complete line keeps it, and its time is remembered, while it is inside the horizon |
| `DeliveredMessages.KeptIsRemembered` | chatd/src/delivered-messages.ts:19-52 | a recorded entry is remembered while no restart comes, or if the first finds its line and the latest finds it recent |
| `DeliveredMessages.RestartKeepsExactly` | chatd/src/delivered-messages.ts:19-52 | a restart keeps exactly the readable entries inside the three-day horizon, and the rewritten file says the same |
| `DeliveredMessages.RestartOfAnyFile` | chatd/src/delivered-messages.ts:19-52 | whatever file it finds, a restart keeps each ID once, with the last of its readable entries of the last three days, and the rewritten file says the same |
| `DeliveredMessages.FileAgreesIff` | chatd/src/delivered-messages.ts:27-42 | since a restart the file decodes to the map if and only if no append failed, but for a last one lacking only its newline |
| `DeliveredMessages.CrashLosesAtMostTheLastLine` | chatd/src/delivered-messages.ts:19-52 | a crash in an append loses at most that entry |
| `DeliveredMessages.FailureCostsAtMostTwo` | chatd/src/delivered-messages.ts:27-42 | a process that goes on loses at most two entries per failed append |
| `DeliveredMessages.FailedAppendCanCostTheNext` | chatd/src/delivered-messages.ts:27-42 | and can lose two |
| `DeliveredMessages.EveryRunIsSound` | chatd/src/delivered-messages.ts:19-52 | in every run each ID is held once, in the map and in the file, and the file holds nothing the map does not |
| `DeliveredMessages.WrittenReadsBack` | chatd/src/delivered-messages.ts:79-85 | what is rewritten decodes to the same entries |
| `DeliveredMessages.AfterAnAppend` | chatd/src/delivered-messages.ts:23-24 | an append adds its entry to a file that ends in a newline; otherwise the line becomes unreadable |
| `DeliveredMessages.EntriesStillRemembered` | chatd/src/delivered-messages.ts:44-52 | the loop over the lines sets each readable entry inside the horizon |
| `DeliveredMessages.Rewrite` | chatd/src/delivered-messages.ts:79-85 | the lines written are the entries of the map in order |
| `DeliveredMessages.DeliveredLedger.constructor` | chatd/src/delivered-messages.ts:19-25 | a start reads what is still remembered, rewrites the file and says whether there was one |
| `DeliveredMessages.DeliveredLedger.HasMessage` | chatd/src/delivered-messages.ts:34-34 | an ID is known exactly when the map holds it |
| `DeliveredMessages.DeliveredLedger.Record` | chatd/src/delivered-messages.ts:35-39 | a known ID changes nothing; a new one is set in the map and appended |
| `ShellWords.QuotedReadsAsOneWordIff` | internal/agentruntime/file_tools.go:1578-1580 | a POSIX shell (sections 2.2 and 2.3 of the POSIX Shell Command Language) reads a quoted value as that one word if and only if it holds no NUL |
| `ShellWords.WordsReadBackIff` | internal/agentruntime/delivery_check.go:72-79 | words quoted and joined by spaces read back as the same list if and only if none holds a NUL |
| `ShellWords.DeliveryCheckCommand` | internal/agentruntime/delivery_check.go:72-79 | there is a command exactly when the check is not all white space, and it reads back as its words if and only if none holds a NUL |
| `ShellWords.NoFieldsIff` | internal/agentruntime/delivery_check.go:73-74 | the check has no first word exactly when it is all white space |
| `ShellWords.FieldsOfJoined` | internal/agentruntime/delivery_check.go:73-73 | splitting into fields undoes joining with spaces |
| `ShellWords.FieldsAreTheText` | internal/agentruntime/delivery_check.go:73-73 | the fields hold no white space, and together they are the text but for its white space |
| `ShellWords.PathArgumentReads` | internal/agentruntime/requester_shell.go:56-64 | a path argument is one word, the path with a leading tilde replaced by the home directory |
| `ShellWords.ResolvedIs` | internal/agentruntime/requester_shell.go:56-64 | a tilde, alone or before a slash, stands for the home directory, and any other path for itself |
| `ShellWords.PathArgumentWithNulIsRefused` | internal/agentruntime/requester_shell.go:56-64 | unless it holds a NUL |
| `ShellWords.ReadReadsBackIff` | internal/agentruntime/file_tools.go:273-276 | the read command is the size and the first bytes of exactly that file if and only if the path holds no NUL |
| `ShellWords.ItoaReadsBack` | internal/agentruntime/file_tools.go:273-276 | the number of bytes asked for is written as the numeral that stands for it |
| `ShellWords.DeleteReadsBackIff` | internal/agentruntime/file_tools.go:292-300 | the delete command names exactly that file if and only if the path holds no NUL |
| `ShellWords.WriteReadsBackIff` | internal/agentruntime/file_tools.go:268-271 | the write command makes the directory that the command nested in double quotes names, and writes exactly that file, if and only if the path holds no NUL |
| `ShellWords.WriteMakesTheDirectoryIff` | internal/agentruntime/file_tools.go:268-271 | with a shell whose `dirname` is the POSIX one, the directory made is the file's own if and only if its name does not end in a newline |
| `ShellWords.WriteCanMakeAnotherDirectory` | internal/agentruntime/file_tools.go:268-271 | for a file in `/d` followed by a newline, `/d` is made |
| `ShellWords.DirnameOfJoined` | internal/agentruntime/file_tools.go:268-271 | the directory of a name in a directory is that directory |
| `ShellWords.NestedCommandReads` | internal/agentruntime/file_tools.go:268-271 | a nested command in double quotes is one word with its output, whatever quotes are inside it |

## Left out

- Patch.PatchFile: the file a path stands for does not change while the patch runs.
- Patch.FilePatchState.LoadEditableFile: reads the files as they are when the patch starts; changes by others in between are not modelled.
- MessageFlights.EveryInterleavingIsSafe: that a launch records its run before it returns and that the lookup then finds it is built into the steps, since the store is not part of this model.
- MessageFlights.EveryPromptIsAnswered: a launch that records no run stands for all ways in which a prompt returns without one: it answers a question, is not for the agent, or fails.
- MessageFlights.EveryScheduleFinishes: a launch returns and a run that is waited for settles in the end; the code bounds neither, so a schedule that leaves one of them out stays where it is.
- MessageFlights.NoDeadlock: counts a launch that returns, and a run that settles, among the steps that can be taken.
- LedgerMirror.LedgerIsTheFilteredHistory: records are handed over one at a time, as the connection does it; the host's own appends may come between any two of the mirror's steps.
- RecordIndex.Catalog.ListIntoRecordIndex: the source answers in the order of its stamps, is disturbed in finitely many answers and does not delete; a source that never lets a listing end is cut off by the ten-minute timeout, which is a refusal here.
- RecordIndex.RefreshedIndex.RefreshRecordIndex: one requester of a source; several that share the stored records are in `SharedIndex`.
- SharedIndex.PassedByAllIsHeld: each change has a stamp after all earlier ones, and what a requester sees is settled record by record and does not change; a change stamped at or before a cursor is in `RecordIndex`.
- RecordIndex.BeginsAListingIff: clock readings are not the zero time, which the code takes for "never started".
- IdentityTable.IdentityAllocationTable.NextFreeID: some ID is unreserved; with all 2^32 reserved the loop does not end.
- GroupHealing.ChangedDirectoryEndsInItsGroupIff: a recursive command reaches the paths at and below its own, by the names between slashes; links, mount points, repeated slashes and a slash at the end are not modelled.
- DeliveredMessages.FileAgreesIff: the JSON text of an entry is one cell; that a text cut short, or joined to another on one line, does not parse is taken from JSON.
- ShellWords.QuotedReadsAsOneWordIff: the reader takes text as characters rather than bytes, and refuses what it does not model: unquoted expansions and patterns, comments, other operators. What a nested command puts out is a parameter, told for `dirname` only where a theorem asks for it.
- ShellWords.DeliveryCheckCommand: how two paths are joined is a parameter; where the code would fail on a missing first word the model returns nothing.
- Guidance for failed edits: closest lines, similarity of lines, wording of messages.
- Reading a file's size and content out of the shell's output.
- Retired circle groups, a single filter over three lists.
- Storing the identity table and the other JSON codecs.
- Drawing delivery IDs, and the choice of the deduplication key of a message.
- Sending session updates and notices, replay of the ledger to an agent, wording of steer prompts.
- The search over the record index.
- HTTP handlers, process starting, the chat adapters and the admin interface.
