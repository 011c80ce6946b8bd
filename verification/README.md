# Verified models of LTP's logs, scheduler, tables and small tools

This project models the parts of the Linux Test Project whose correctness is not evident
from reading one function, and proves what they promise, for all inputs and all runs.
`dafny verify dfyconfig.toml` checks everything.

| file | models | main results |
|---|---|---|
| `WlogCodec`, `WriteLog` | the write log: packed records, append, overlay, backward scan | any history of appends and overlays refines a list; the windowed scan delivers the newest records of that list; pack/unpack is the identity exactly on records that fit |
| `Ratchet`, `Zoo`, `PanSlots`, `PanStory`, `Pan` | pan: signal ratchet, zoo file, scheduler with orphans | at every loop boundary the zoo mirrors pan's process groups; the slots hold what fork and wait told, and num_active counts them while `wait` is orderly; commands run in order; what a calm run starts is decided by slots and budget, and a finished one with the default budget attempted every command once; orphans that outlast five drain rounds have been sent SIGKILL |
| `Pattern` | fill and check by doubling | both agree with the byte-by-byte definition |
| `SplitStr`, `SymbolTree`, `SymbolTable`, `TagReport` | tokeniser, hierarchical symbol table in the heap, CUTS result report | the table refines a path map and lists every level in the order of first puts since the level was last replaced; the report is the worst status of the raw result stream |
| `Checkpoint` | futex checkpoints | in every interleaving, success means exactly the requested number, unless the counter can go round |
| `RandomRange`, `RandomBit` | random numbers in a range, random bits, random io methods | the promised range, exactly when it holds; one requested bit of each kind |
| `OpenFlags` | open(2) flags to symbols and back | print then parse gives the claimed flags |
| `RandLines` | shuffling the lines of a file | a permutation within consecutive blocks |
| `RmObj` | recursive removal | exactly what can be removed is |

How the models are built:

- Code that updates state is a class or a method on arrays, proved against functions on values;
  the laws are proved about those functions. Pure code is functions.
- What the program cannot decide is a parameter: children, `wait`, `kill` and signals for pan, the
  other processes' events for checkpoints, random draws, which system calls fail. Nothing is
  assumed of these beyond their types unless a contract says so.
- Widths matter where the source depends on them: bit-fields, the two length bytes of a log
  record, unsigned counters, 64-bit arithmetic with an explicit `Overflow` outcome, `char` that
  may be signed.

Where a promise is false of the code, the model follows the code and the exact condition is
proved:

- A path of 128 or a pattern of 64 bytes does not survive packing, because the bit-fields are one
  bit too narrow (`RoundTripExactlyWhenFits`, `LongPathLost`).
- With signed `char`, `wlog_scan_backward` misreads the length of records of 128 bytes and more
  (`ScanWithoutStop`, `SignedScanFails`).
- A stop of the callback ends the scan only if it is given for a record in the last window read
  (`StopObeyedExactly`, `StopFails`).
- `num_active` loses count exactly when `wait` reports something other than an end of a child in a
  slot, or the end of a child in none (`CheckPids`, `StoppedChildMiscounts`).
- A signal that arrives between the two stores of `rec_signal = send_signal = 0` can be forgotten as
  received and stay to be sent (`EveryRunSound`, `TornFlush`, `SignalLost`).
- A report made only of statuses missing from the table of statuses depends on their order
  (`DeterminedExactly`).
- `tst_checkpoint_wake` can report success after releasing 2^32 sleepers too many
  (`CountsExactlyWhen`).
- `random_range` promises "any valid integer" as bounds, but rounds negative bounds the wrong way,
  and leaves a wide range that begins below zero (`ServesExactly`, `NarrowExactly`, `WideExactly`).

Where the code and its documentation disagree, the model follows the code:
`include/old/write_log.h` says the stored length of a record counts the two length bytes; the code
stores the length without them.

## Model

| member | source | states |
|---|---|---|
| `Pattern.PatternFill` | lib/pattern.c:101-156 | filling by doubling leaves byte i equal to byte (patshift + i) mod patlen of the pattern for every i, and the bytes past buflen untouched |
| `Pattern.PatternCheck` | lib/pattern.c:40-99 | returns 0 if and only if every byte is the one the definition asks for, else -1; the buffer is only read |
| `Pattern.FillThenCheck` | lib/pattern.c:40-156 | check after fill with the same arguments always succeeds |
| `Pattern.ExtendMatch` | lib/pattern.c:87-96 | one doubling is right: the next bytes match the definition exactly when they repeat the first bytes of the buffer |
| `Pattern.DoublePeriod` | lib/pattern.c:146-153 | a period stays one when doubled, which is why the copied stretch may grow |
| `Pattern.RepeatedPeriod` | lib/pattern.c:101-156 | the definition has period patlen |
| `Pattern.ReducedShift` | lib/pattern.c:45-46 | reducing the shift modulo patlen changes nothing |
| `WlogCodec.RecPack` | lib/write_log.c:404-449 | fills the front of the buffer with the packed record (or its fixed part alone), leaving the unnamed bits and every later byte as they were |
| `WlogCodec.ImageDecodes` | include/old/write_log.h:107-127 | the 28 bytes of the fixed part decode to the fields and slack bits they were made of |
| `WlogCodec.ImageOfDecoded` | include/old/write_log.h:107-127 | conversely every 28 bytes are the image of what they decode to, so the layout loses nothing |
| `WlogCodec.UnpackBody` | lib/write_log.c:451-486 | unpacking a packed record gives exactly what the bit-fields keep of it, whatever the slack bits |
| `WlogCodec.RoundTripExactlyWhenFits` | lib/write_log.c:404-486 | unpack inverts pack if and only if the record lies within the bit-field widths with zero-filled strings |
| `WlogCodec.LongPathLost` | lib/write_log.c:404-486 | a record with a path of WLOG_MAX_PATH bytes never comes back as it was |
| `WlogCodec.PathOnlyPacks` | include/old/write_log.h:107-127 | a record with nothing but a path of n bytes can be packed, and fits exactly when n is below WLOG_MAX_PATH |
| `WlogCodec.UnpackIgnoresRest` | lib/write_log.c:451-486 | unpacking depends on no byte after the record |
| `WlogCodec.OverlayWellFormed` | lib/write_log.c:233-247 | overlaying a fixed part keeps the record consistent exactly when the new lengths add up to the old ones |
| `WlogCodec.OverlayKeepsStrings` | lib/write_log.c:233-247 | with unchanged lengths the overlaid record has the new fixed fields and the old strings |
| `WriteLog.FlattenUpdate` | lib/write_log.c:192-251 | replacing one record of the list by one of the same length is overwriting exactly its bytes in the file |
| `WriteLog.OverlayFile` | lib/write_log.c:233-247 | overwriting the fixed part at a record's offset is replacing that record in the list |
| `WriteLog.Log.Append` | lib/write_log.c:206-232 | the log gains one record at the end, the returned offset is where it starts, and the file so far is a prefix of the new one |
| `WriteLog.Log.Overlay` | lib/write_log.c:233-250 | the file changes only in the 28 bytes at the offset; all record offsets stay; the log stays readable exactly when the lengths add up; with equal lengths only that record's fixed fields change |
| `WriteLog.ReadLength` | lib/write_log.c:345-351 | the code reads a record's true length, or, with signed char, a negative one exactly for records of 128 bytes or more |
| `WriteLog.FindRecord` | lib/write_log.c:331-376 | one turn of the inner loop finds the newest undelivered record exactly, or that it is not wholly in the window, or misreads its length |
| `WriteLog.ScanWindow` | lib/write_log.c:328-391 | one window delivers a run of records newest first and carries over the unread part of the straddling record |
| `WriteLog.Log.ScanBackward` | lib/write_log.c:261-395 | what is delivered is the newest records, newest first, each once, and `Scanned` says how many and how the scan ends |
| `WriteLog.ScanDecided` | lib/write_log.c:261-395 | the log, nrecs, the sign of char and the callback decide the outcome and the number delivered |
| `WriteLog.ScanWithoutStop` | lib/write_log.c:261-395 | for a callback that never stops the scan completes if and only if no wanted record is misread, and then delivers min(nrecs, n) records, all if nrecs is 0 |
| `WriteLog.StopObeyedExactly` | lib/write_log.c:378-391 | the first stop ends the scan if and only if its record lies in the last window read, a place computed from the record lengths; otherwise the scan runs on |
| `WriteLog.ScanOneWindow` | lib/write_log.c:378-391 | in a log of one window a stop is obeyed at the record it is given for |
| `WriteLog.NextWindow` | lib/write_log.c:294-305 | a window that took in the records from one on leads to the next window ending there |
| `WriteLog.StopFails` | lib/write_log.c:383-385 | a log of 547 plain records in which a stop at the newest record is not obeyed |
| `WriteLog.SignedScanFails` | lib/write_log.c:351-374 | one append of a record with a path of 100 bytes, scanned with signed char, copies a negative length |
| `WriteLog.Step` | lib/write_log.c:192-251 | each append or overlay does to the log what it does to the plain list of records, and the offsets kept by the caller stay right |
| `WriteLog.History` | lib/write_log.c:192-395 | any history of appends and overlays followed by a scan with unsigned chars delivers the newest min(nrecs, n) records of the list the history describes |
| `Zoo.AtoiDec` | pan/zoolib.c:230 | atoi undoes the decimal number at the start of a line, whatever follows it |
| `Zoo.EntryNames` | pan/zoolib.c:186-192 | a line marked for a pid names that pid, in spite of truncation and padding |
| `Zoo.FgetsTidy` | pan/zoolib.c:146-149 | in a file of 79-character lines each read gets exactly one line |
| `Zoo.OverwriteLine` | pan/zoolib.c:152-167 | writing over a line changes that line only and keeps all lines 79 characters plus newline |
| `Zoo.LiveMark` | pan/zoolib.c:130-184 | marking adds exactly one live entry for the pid, wherever first fit puts it |
| `Zoo.LiveClear` | pan/zoolib.c:206-261 | clearing removes exactly one entry of the pid and finds one if and only if the pid is live |
| `Zoo.ZooFile.Mark` | pan/zoolib.c:130-184 | the file stays tidy and at most one line changes: the first free one, or a new last one |
| `Zoo.ZooFile.MarkCmdline` | pan/zoolib.c:186-192 | the live pids gain exactly the one marked |
| `Zoo.ZooFile.Clear` | pan/zoolib.c:206-261 | returns 1, changing nothing, exactly when the pid is not live; else frees one line of it |
| `Zoo.LinesArePeak` | pan/zoolib.c:130-261 | over any sequence of marks and clears from an empty file the number of lines is the peak number of entries live at once |
| `Zoo.Replay` | pan/zoolib.c:130-261 | the file itself follows any such sequence and has 80 characters per entry of the peak |
| `Ratchet.TornFlush` | pan/ltp-pan.c:700 | a flush whose two stores are parted by signals leaves nothing received, and nothing to be sent if and only if those signals are harmless: SIGUSR2 apart, none, or a single one for which the handler has no rule after the last signal |
| `Ratchet.EveryRunSound` | pan/ltp-pan.c:1423-1445 | in every state of a run a signal waiting to be sent implies one received, if and only if the signals between the two stores of every flush are harmless |
| `Ratchet.SignalLost` | pan/ltp-pan.c:575 | a second SIGINT between the two stores is lost as received and leaves SIGTERM to be sent |
| `Ratchet.NextRound` | pan/ltp-pan.c:616-635 | each undisturbed round of the orphan loop brings SIGKILL exactly one round nearer |
| `Ratchet.KillWithinFive` | pan/ltp-pan.c:616-635 | from any reachable state with nothing pending SIGKILL is sent at a round fixed by the state, no later than the fifth and in no earlier one |
| `Pan.OpenZoo` | pan/ltp-pan.c:466-493 | in a zoo that may have lines already, the set-up adds pan's own live line and no clear fails |
| `PanSlots.OccupiedSlots` | pan/ltp-pan.c:525-536 | slots are fewer occupied than there are exactly when one is free |
| `PanSlots.FreeSlotFound` | pan/ltp-pan.c:525-536 | the search for a free slot succeeds exactly when fewer slots are occupied than there are |
| `Pan.Scheduler.CheckOrphans` | pan/ltp-pan.c:1291-1319 | every orphaned group is sent the signal, empty groups leave list and zoo together |
| `Pan.Scheduler.MarkOrphan` | pan/ltp-pan.c:1321-1338 | the new group takes the first free entry, or a new one behind the head |
| `Pan.Scheduler.PropagateSignal` | pan/ltp-pan.c:667-701 | occupied slots are flagged as stopping, orphans get the pending signal, the ratchet is flushed, the mirror stays exact |
| `Pan.Scheduler.ReleaseSlot` | pan/ltp-pan.c:866-885 | a finished group's slot and line are freed; if processes are left it becomes an orphan with a line of its own and is sent SIGTERM, as the log of signals says |
| `Pan.Scheduler.CheckPids` | pan/ltp-pan.c:703-892 | the report goes into the story; if num_active counted the occupied slots before, it does after if and only if the report is no child, an end of a child in a slot, or something else of a child in none; the result counts failures as documented |
| `Pan.StoppedChildMiscounts` | pan/ltp-pan.c:745-890 | a child reported stopped leaves its slot and stays counted: num_active is one too high |
| `Pan.Scheduler.RunChild` | pan/ltp-pan.c:1063-1150 | a started child occupies the slot and gets a line; a failed start changes neither; command and pid are recorded, with the groups tracked at the time |
| `Pan.Scheduler.StartOne` | pan/ltp-pan.c:517-550 | one start keeps all invariants; while wait is orderly the abort branch is not taken |
| `Pan.Scheduler.StartStep` | pan/ltp-pan.c:517-548 | the loop that starts children goes on exactly with one more child asked for and charged; it breaks off only if pan stops, idles or has received a signal, and never in a calm orderly run |
| `Pan.Scheduler.StartChildren` | pan/ltp-pan.c:517-550 | it ends only with no free slot, no budget, a stop, a signal or idling, or no more answers; in a calm orderly run the number of starts is the one free slots and budget give |
| `Pan.Scheduler.ActOnSignal` | pan/ltp-pan.c:567-585 | SIGUSR2 only stops or idles, every other signal is propagated; stop, go_idle and fork_in_road change as stated |
| `Pan.Scheduler.Round` | pan/ltp-pan.c:515-613 | one turn keeps all invariants; the story grows by the pids of the first starts of the script and its wait; a failure under brakes leaves a signal pending, and with one pending no child is started and pan stops or idles until nothing is active; a calm turn of an orderly run starts what free slots and budget give, stays calm, and ends the loop exactly when the budget is used up and nothing is active |
| `Pan.Scheduler.Drain` | pan/ltp-pan.c:616-635 | each round signals exactly the groups left by then; undisturbed, the signals are the ratchet's, and every group left after five rounds, six if a signal was pending, has been sent SIGKILL; it ends with no orphan |
| `PanSlots.SurvivorsAreKilled` | pan/ltp-pan.c:616-635 | an entry of the orphan list that outlasts five undisturbed rounds, six if a signal was pending, is among those sent SIGKILL |
| `Pan.Scheduler.Leave` | pan/ltp-pan.c:637-640 | pan's own clear never fails, and in an orderly run the zoo is left with the lines it had |
| `Pan.Boundary` | pan/ltp-pan.c:515-613 | at every boundary: live lines are the old ones plus pan, occupied slots and orphans; no clear failed; the slots hold the children forked and not reported since; commands ran in order; if wait was orderly in the story, num_active counts the slots, is at most keep_active and nothing aborted; if the pids were fresh each group is tracked once; rec_signal 0 implies send_signal 0 |
| `Pan.DefaultBudget` | pan/ltp-pan.c:390-403 | in sequential mode with the default budget, starts reaching zero means every command was attempted exactly once, in order |
| `Pan.CountsTold` | pan/ltp-pan.c:538-543 | in an orderly run num_active and starts are what the story of forks and waits says: unreported children, and the budget less what was charged |
| `PanStory.ConsumedStep` | pan/ltp-pan.c:517-550 | each start an undisturbed loop takes uses a slot if it gave a child, and budget if it did or the mode is sequential |
| `PanStory.PlanTurn` | pan/ltp-pan.c:515-613 | turn by turn the script, slots and budget fix what a calm run starts |
| `PanStory.PlanStops` | pan/ltp-pan.c:606-607 | once the budget is used up and no child is left nothing more is planned |
| `Pan.MainLoop` | pan/ltp-pan.c:515-613 | the story of the loop is the script's; calm runs stay calm while orderly, and take exactly the planned turns if the plan is orderly |
| `Pan.AllAttempted` | pan/ltp-pan.c:390-403 | with the default budget used up in sequential mode the attempts are every command once, in order |
| `PanStory.TurnOrderly` | pan/ltp-pan.c:745-790 | what a turn asks of wait for the story to stay orderly |
| `PanStory.DistinctIsFresh` | pan/ltp-pan.c:538-542 | if the script gives no pid twice and never pan's, no pid forked is tracked at the time |
| `Pan.RunPan` | pan/ltp-pan.c:466-640 | a whole run under any script of answers: the story is the script's, turn by turn; if it is orderly, num_active counts its unreported children and nothing aborted; with distinct pids every group is tracked once; no clear failed; attempts and budget agree, finished or not; a calm run takes exactly the turns planned from script, slots and budget if these are orderly; a finished orderly run leaves the zoo its old lines, and if calm it used up its budget: in sequential mode with the default one, every command was attempted exactly once, in order |
| `SplitStr.Splitstr` | pan/splitstr.c:61-143 | the array holds the tokens in order and NULL in every other entry, of which there is always one |
| `SplitStr.TokensAreComponents` | pan/splitstr.c:108-123 | every token is non-empty and free of separators |
| `SplitStr.TokensKeepText` | pan/splitstr.c:108-123 | tokens together are the text without its separators, in order |
| `SplitStr.SplitUndoesJoin` | pan/splitstr.c:61-143 | splitting joined components gives them back |
| `SymbolTree.PutGet` | pan/symbol.c:194-257 | after a successful put the path leads to the new data |
| `SymbolTree.PutFrame` | pan/symbol.c:194-257 | paths that are neither prefix nor extension of the key are unchanged |
| `SymbolTree.PutCode` | pan/symbol.c:213-242 | success, EEXIST or ENOTDIR is decided by what stood at the path |
| `SymbolTree.PutFails` | pan/symbol.c:213-242 | EEXIST and ENOTDIR change nothing |
| `SymbolTree.PutPrefix` | pan/symbol.c:244-252 | prefixes of a path that was put lead to tables |
| `SymbolTree.PutDistinct` | pan/symbol.c:124-155 | sibling keys stay unique at every level |
| `SymbolTree.PutLevel` | pan/symbol.c:194-257 | what a put does to the key list of any level: a new key comes last, a known one changes nothing, a put at the level or above replaces it |
| `SymbolTree.FirstPutIs` | pan/symbol.c:194-257 | the first put of a key from some point on is the first successful one that goes through it |
| `SymbolTree.LevelsInPutOrder` | pan/symbol.c:137-257 | after any sequence of puts a level has the keys the last successful put at its path or above brought, then exactly the others that successful puts since then went through, in the order of the first of these |
| `SymbolTree.LevelBase` | pan/symbol.c:137-257 | that put brought the keys of the table it stored below the level, none if it stored no table; before any such put the level is empty |
| `SymbolTree.FromBelow` | pan/symbol.c:213-230 | putting and getting may be done from any table on the way |
| `SymbolTable.Lift` | pan/symbol.c:194-257 | in the heap, changing one table's list is changing that subtree and nothing else |
| `SymbolTable.AddKeys` | pan/symbol.c:244-252 | the missing keys become a chain of fresh tables, appended to the list, with the data at its end |
| `SymbolTable.SymTab.Walk` | pan/symbol.c:213-230 | the walk ends at the first key that is missing, not a table, or last, in the table that stands for that path |
| `SymbolTable.SymTab.PutData` | pan/symbol.c:194-257 | for data of any kind, the headers in the heap end up representing the tree after the put, and its code is returned |
| `SymbolTable.SymTab.Put` | pan/symbol.c:194-257 | the same for NULL and a caller's own pointer |
| `SymbolTable.SymTab.PutTable` | pan/symbol.c:194-257 | the same for another table, whose headers become part of this one, or stay a table of their own if the put fails |
| `SymbolTable.PutAll` | pan/symbol.c:194-257 | any sequence of puts into a new table builds the tree that sequence describes |
| `SymbolTable.SymTab.Get` | pan/symbol.c:265-309 | returns the data the path map has, NULL if none |
| `SymbolTable.SymTab.SetCursor` | pan/symbol.c:333-344 | R_CURSOR points at the first node of the table at the path, 2 exactly when there is none |
| `SymbolTable.SymTab.Next` | pan/symbol.c:355-366 | R_NEXT moves one node on in the same list and fails at its end |
| `SymbolTable.SymTab.ListKeys` | pan/symbol.c:346-366 | R_FIRST then R_NEXT lists the keys of the table itself once each in insertion order |
| `SymbolTable.SymTab.ListKeysAt` | pan/symbol.c:333-366 | R_CURSOR then R_NEXT lists the table at any path so, and nothing if there is none |
| `TagReport.Worse` | pan/tag_report.c:457-478 | the status earlier in the table, the second on a tie |
| `TagReport.RankInjective` | pan/tag_report.c:460-463 | two known statuses of equal rank are the same status |
| `TagReport.CutsTestcase` | pan/tag_report.c:418-452 | the status at the key made of test and case, whatever its components, becomes the worse of the old and the new; in a table of tests that records the line |
| `TagReport.StepRecords` | pan/tag_report.c:437-449 | a line changes what is recorded for its own test case and for no other |
| `TagReport.BuildSummarises` | pan/tag_report.c:418-452 | after any stream each recorded status occurred for its test case, and each line's test case has a status at least as bad |
| `TagReport.CutsReport` | pan/tag_report.c:109-201 | reports the fold of the table, the number of numbered cases, and a wrong count exactly when one was announced and differs |
| `TagReport.WorstReported` | pan/tag_report.c:109-201 | once a known status occurs, the report is the worst status of the raw stream |
| `TagReport.OrderDoesNotMatter` | pan/tag_report.c:109-201 | then it depends only on the set of statuses seen |
| `TagReport.DeterminedExactly` | pan/tag_report.c:457-478 | the report is a function of the set of statuses if and only if one is known or there is only one |
| `TagReport.TallyIsDistinctCases` | pan/tag_report.c:188-189 | the count is the number of distinct (tcid, testcase) pairs with a non-zero number |
| `TagReport.ReportTag` | pan/reporter.c:239-248 | one tag from first line to report, through the heap, with the tag's keys put in as a table: worst status, distinct cases, count check |
| `Checkpoint.Futexes.Wake` | lib/tst_checkpoint.c:99-126 | in every interleaving: EOVERFLOW touches nothing; else at most max(1, timeout) rounds, success at the first round where the total released is nr_wake modulo 2^32, ETIMEDOUT after the last round otherwise |
| `Checkpoint.Conservation` | lib/tst_checkpoint.c:109-123 | the total released is the initial sleepers plus arrivals minus those who left otherwise |
| `Checkpoint.OthersUntouched` | lib/tst_checkpoint.c:83-126 | a process that keeps off the futex fares as if the waker were not there |
| `Checkpoint.Rendezvous` | lib/tst_checkpoint.c:109-123 | if exactly nr_wake have been released by some round in time, the call succeeds no later, having released exactly nr_wake |
| `Checkpoint.CountsExactlyWhen` | lib/tst_checkpoint.c:102-114 | success means exactly nr_wake in every run of n processes if and only if n times the rounds stays below 2^32 |
| `RandomRange.DividerBounds` | lib/random_range.c:546-603 | whichever halves are chosen the recursion guard never fires, the result is at least min and less than 2^31 above max, and at each level follows the half chosen |
| `RandomRange.Rounded` | lib/random_range.c:493-497 | what the two roundings do to any number: right for non-negative ones, one multiple too far up for negative ones |
| `RandomRange.ServesExactly` | lib/random_range.c:493-507 | rounding keeps the range and errs exactly on empty ranges, if and only if the stated condition on the bounds holds |
| `RandomRange.RangeHolds` | lib/random_range.c:451-530 | for non-negative bounds: error exactly when mult < 1 or no multiple exists, else a multiple within the range, overflow only at the stated extremes |
| `RandomRange.EveryMultipleDrawn` | lib/random_range.c:513-520 | over a 31-bit range every multiple is the result of some draw |
| `RandomRange.NarrowExactly` | lib/random_range.c:451-520 | over ranges of either sign a draw can span, every draw gives what is promised if and only if rounding serves |
| `RandomRange.NegativeEscapes` | lib/random_range.c:521-528 | for any wide range with a negative start the draw 0 gives twice the start |
| `RandomRange.WideExactly` | lib/random_range.c:451-528 | with mult 1, every draw over a range too wide for one draw gives what is promised if and only if the range does not begin below zero |
| `RandomBit.CountBits` | lib/random_range.c:640-645 | the loop counts the bits set |
| `RandomBit.FindBit` | lib/random_range.c:661-671 | shifting terminates within the word and ends just past the k-th set bit, for negative masks too |
| `RandomBit.RandomBitOf` | lib/random_range.c:626-673 | nothing of an empty mask, else exactly the one set bit the draw selects |
| `RandomBit.EveryBitDrawn` | lib/random_range.c:626-673 | every set bit is the result of some draw |
| `RandomBit.LioRandomMethods` | lib/tlibio.c:468-482 | one requested io type and one requested wait method where any was set, none otherwise; LIO_RANDOM cleared, every other bit of the int unchanged |
| `OpenFlags.ClaimsSplit` | lib/open_flags.c:263-275 | the greedy pass divides the flags between the entries it claims and the rest |
| `OpenFlags.Openflags2Symbols` | lib/open_flags.c:239-289 | prints the claimed symbols in table order with any separator, and UNKNOWN exactly when bits are left and mode is 1 |
| `OpenFlags.ParseOpenFlags` | lib/open_flags.c:190-237 | the meaning of the comma-separated fields, or the place of the first unknown one; the text is left as it was |
| `OpenFlags.RoundTrip` | lib/open_flags.c:190-289 | parsing what was printed gives the flags less the unclaimed bits, and fails only if nothing was printed |
| `OpenFlags.TextRoundTrip` | lib/open_flags.c:190-289 | the same for the text the printing loop builds with mode 0 |
| `OpenFlags.FullRoundTrip` | lib/open_flags.c:190-289 | with an entry for each access bit something is always printed, and fully claimed flags come back unchanged |
| `OpenFlags.UnknownRefused` | lib/open_flags.c:281-285 | a text that ends in UNKNOWN does not parse |
| `RandLines.File.Fgets` | tools/rand_lines.c:316 | reads one piece: to the newline, the end of the file or a full buffer |
| `RandLines.RndInsert` | tools/rand_lines.c:358-399 | the offset goes into one slot that was free and no other slot changes; -1 exactly when all are used |
| `RandLines.Insert` | tools/rand_lines.c:358-399 | filling a free slot adds that line to the lines held, and nothing else |
| `RandLines.ReadBlock` | tools/rand_lines.c:316-327 | the slots come to hold exactly the next pieces of the file; inserting never fails |
| `RandLines.RndFile` | tools/rand_lines.c:270-349 | for every file and every draw the output is the file's pieces, permuted only within consecutive blocks of numlines, and the loop ends |
| `RandLines.InBlocksPermutes` | tools/rand_lines.c:270-349 | so the output is a permutation of the pieces |
| `RandLines.PiecesAreFile` | tools/rand_lines.c:316-327 | the pieces in order are the whole file |
| `RmObj.FileSystem.Rmobj` | lib/rmobj.c:95-211 | what remains is exactly the tree without its removable part, nothing outside changes, and the result is 0 if and only if there was an object and nothing under it stood in the way; the root is refused |
| `RmObj.FileSystem.RemoveKids` | lib/rmobj.c:136-149 | removing the entries one by one, in any order, removes what each removal alone would |
| `RmObj.GoneExactly` | lib/rmobj.c:95-211 | the whole subtree is gone if and only if nothing in it stands in the way |
| `RmObj.SurvivesBelow` | lib/rmobj.c:136-157 | below a directory that could be listed, an entry survives as it does below its child |
| `RmObj.RemovedWF` | lib/rmobj.c:154-157 | the directories above a survivor survive |

## Left out

- WriteLog.Log.ScanBackward: what is delivered after a stop that is not obeyed is not stated, because the code then goes on in the middle of a record. Files are shorter than 2^31 bytes, as `int` offsets require.
- WlogCodec.RecPack: a host length of 10 to 15, for which the code reads past `w_host`, is excluded.
- Pattern.PatternFill: patlen 0, for which the source's loops make no progress, and negative shifts are excluded.
- Pattern.PatternCheck: excludes the same arguments as PatternFill.
- Pan.Scheduler.PropagateSignal: in pan's runs signals arrive between statements, so `rec_signal = send_signal = 0` is one step there; what a signal between its two stores does is stated by Ratchet.EveryRunSound.
- Pan.Scheduler.CheckPids: timing, output buffering and the failure command files are not modelled.
- Pan.Scheduler.Drain: the log of signals sent covers orphaned groups, not the running slots.
- Pan.RunPan: the environment's answers are finite lists, so a run that goes on for ever appears as all its prefixes; nobody else writes to the zoo meanwhile.
- SymbolTable.SymTab.Put: a key without components is modelled only where the code does not follow a null pointer. The links of a node list are not modelled: a list is a sequence its header holds.
- SymbolTable.SymTab.PutTable: the caller's own handle on a table put in is not used afterwards.
- SymbolTable.SymTab.Get: keys have at least one component, since for others the code follows a null pointer.
- TagReport.CutsTestcase: the words of the line are given; a key at which a table stands, which the code would read as a string, and a key without components are excluded. Key buffer sizes are not modelled.
- TagReport.ReportTag: test ids and cases contain no comma, and no test is called `_keys`, which would collide with the tag's own entry.
- Checkpoint.Futexes.Wake: `FUTEX_WAKE` wakes every sleeper, since process ids are ints and the call asks for INT_MAX; the clock is the number of rounds.
- RandomRange.RangeHolds: negative bounds are covered by NarrowExactly for ranges a draw can span and by WideExactly for wider ones with mult 1; for a wide range and another mult, which draws fail depends on the divisors of the number of multiples.
- RandomRange.DividerBounds: the bits of the draw that choose halves are arbitrary, which covers shifts by 31 and 32 whose value C does not define.
- OpenFlags.Openflags2Symbols: the 512-byte result buffer is not modelled; flag words are sets of bit numbers.
- OpenFlags.ParseOpenFlags: an error is distinct from the word of all ones, with which -1 coincides in C.
- RandLines.RndFile: the text holds no NUL bytes, at which `fputs` would stop; `malloc` succeeds.
- RmObj.FileSystem.Rmobj: each entry is listed once, in any order; names are path components, so PATH_MAX is not modelled. The branch for three or more links is never reached, as an emptied directory has at most two.
- File locking, I/O errors, short reads and writes, and running out of memory.
- Log, report and error texts; the message formats of `test_result`.
- `zoo_getpid` and the reading side of the zoo, `parse_ranges`, `rnd_stdin`, `sym_rm`, `sym_dump`, the scanner's lexer, and the test library itself.
