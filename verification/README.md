# Verified models of the Vaipakam release-note assembler, alert-chat protocol and pre-notify lane

A Dafny model of the parts of the repository whose correctness spans many steps,
many runs or many processes, and proofs of what they promise. Check it with
`dafny verify dfyconfig.toml`.

## What is modelled

**Release-note assembler** (`docs/ReleaseNotes/assemble.py`).
`NoteText` is the byte layer: leftmost replacement, the three line endings of
section 2.1 of CommonMark, the two link rewrites, CRLF normalisation.
`NoteMarkers` prints, parses and scans assembly markers; `NoteSections` builds
sections and searches for them; `NoteDuplicates` is the guard against a
published copy without a marker (headings as in section 4.2 of CommonMark);
`NoteBlanks` blanks marker lines in a buffer, in place. `NoteDisk` is the file
system, with a step per rename or unlink, a budget of steps after which the
process is killed, and windows in which anything else may write. `NoteAssembly`
is the run itself; `NoteRuns` says what any number of runs keeps. SHA-256 is an
arbitrary function whose values are 64 hex digits; it is not assumed injective,
so statements say "or these two byte strings collide" and name the two.

**Protected alert-chat removal** (`alertChannelChange.ts`,
`alertChannelFlow.ts`, the link write of `db.ts`). `AlertStore` and
`AlertWrites` are the tables and what each D1 batch does to them.
`AlertProtocol` is the state machine: any number of processes, one atomic step
per statement or batch, any step of any other process in between, and a log of
what each process read and what each chat accepted. `AlertFlows` is the code of
one process, every await a call in which the others take any steps; each of its
own steps is a step of the machine, so what holds of every run holds of it.
`AlertQueue` is the order of the tick's two lists, `AlertRetry` what ticks that
follow one another in a run keep, and `AlertHistory` what had happened in a run
when a process read the answer it acts on.

**Pre-notify lane** (`periodicPreNotify.ts`). `PreNotifyPass` is the pass record
and the examination marks, `PreNotifyReminder` one loan's messages and stamp,
`PreNotifyLane` one invocation with its single request allowance. Replies,
failures and which writes land are arbitrary; a write reported as failed may
still have landed.

**Smaller cores.** `SignedRequests` (the one-time ledger with real clocks),
`LegalHolds` (register, trail, and the replay of the restore script),
`FormulaMarkers` (comment joining and marker claiming), `OpenSeaOrder` (Seaport
components parsed and printed).

## Findings

Places where the code does less than its promise, each with its exact condition:

- `discover` refuses a fragment name with an LF but not one with a CR. The marker
  of such a name never reads back: the round trip and the file's memory of a fold
  hold if and only if the name has no CR (`MarkerReadsBackIff`,
  `SectionReadsBackIff`, `FoldIsRememberedIff`). When a run is cut off between
  publishing and clearing, only the duplicate guard then stands between the
  section and a second copy, and it does stop an unforced run: every published
  text opens with a heading, and the guard finds it (`BuiltIsSuspect`). So over
  unforced runs nothing is lost or folded twice whatever the names are
  (`RunsOfOneDay`), and a published section can be folded in again if and only if
  a later run is forced and the name has a CR (`FoldedAgainIff`; `FoldedTwice` is
  such a run, for any such name).
- `assert_section_present` accepts a fragment whose body is blank without
  searching for it; `PresentIffHolds` is exact for every other body.
- A request's own notice and the tick's retry can both be accepted for one
  change, and the first mark to land decides the stored time. An accepted
  notice states the stored time if and only if the wait started with that
  notice (`StatedTimeIsStored`, `MarkStoresTheStatedTime`);
  `StatedTimeMayBeLost` is a run from any start in which it does not.
- The unprotected answer that clears a chat is read after the process saw the
  chat linked and before it commits while the chat is linked (`RemovalHistory`),
  but the chat need not be linked when the answer is read: `AnswerWhileAway` is a
  run from any start in which another chat is. It is linked then if and only if
  no step between the read of the row and the answer took the chat away and left
  it away; such a step was itself no silent removal, and a handshake or a due
  move brought the chat back before it was cleared (`LinkedAtAnswerIff`).
- A checkpoint can be announced twice when the lender's row cannot be read after
  the borrower was told (the exception skips the stamp), when the stamp does not
  land, or when all that was sent was a push that threw while somebody was still
  owed one. After a visit that may have told somebody, another can if and only if
  that visit did not settle (`ToldAgainIff`); `LenderFailureRepeats` and
  `ThrownPushRepeats` are runs for the two ways in which no write fails.
- A signed message is accepted at most once in every run if and only if the
  clock difference and the delay from check to claim add up to at most the 60
  second margin (`OnceIff`).
- The replay of the hold trail orders a wallet's rows by the database's clock. It
  finds nothing to report if and only if the rows so ordered replay like the rows
  as committed (`ReconcilesIff`), so as long as that clock does not step back
  between two actions on the wallet (`ReplayRebuildsHolds`). Of a step back
  between a wallet's last two actions, `InversionIsReportedIff` says exactly
  which pairs are reported; a place and its lift always are
  (`ClockBackMisleads`).

## Model

| member | source | states |
|---|---|---|
| NoteText.SplitBefore | docs/ReleaseNotes/assemble.py:117 | splitting a text in front of a line ending is splitting its two sides, unless a CR meets an LF there |
| NoteText.SplitAtLf | docs/ReleaseNotes/assemble.py:117 | splitting across an LF, the case of a CR before it included |
| NoteText.SplitOfReplace | docs/ReleaseNotes/assemble.py:1320-1329 | a replacement that involves no line ending commutes with splitting into lines |
| NoteText.SplitOfRewrite | docs/ReleaseNotes/assemble.py:1320-1329 | the two link rewrites of a fragment are made line by line and keep every line where it is |
| NoteText.NormConcat | docs/ReleaseNotes/assemble.py:1561-1599 | CRLF replacement over a concatenation, exactly: piecewise unless a CR meets an LF at the seam, when that CR goes |
| NoteText.NormOfCrlf | docs/ReleaseNotes/assemble.py:1561-1599 | an LF file checked out with CRLF endings normalises back to itself |
| NoteMarkers.ParseMarker | docs/ReleaseNotes/assemble.py:68-70 | a line parses only as the line that prints the record |
| NoteMarkers.MarkerParsesUniquely | docs/ReleaseNotes/assemble.py:68-70 | the greedy marker pattern reads a line one way only: print and parse are inverse both ways |
| NoteMarkers.ScanAtLf | docs/ReleaseNotes/assemble.py:1380-1407 | scanning a file runs over an LF seam: the records of the two sides in order |
| NoteMarkers.AllowedIffScansEmpty | docs/ReleaseNotes/assemble.py:1288-1318 | a fragment passes the marker check exactly when a scan of it finds no marker and nothing unreadable |
| NoteMarkers.SwapKeepsMarkers | docs/ReleaseNotes/assemble.py:1320-1329 | a link rewrite neither creates nor destroys a marker line |
| NoteMarkers.RewriteKeepsAllowed | docs/ReleaseNotes/assemble.py:1320-1329 | a fragment's published form passes the marker check exactly when the fragment does |
| NoteMarkers.CrNameNeverScanned | docs/ReleaseNotes/assemble.py:966-976 | no scan of any file ever yields a record whose name holds a CR |
| NoteMarkers.MarkerReadsBackIff | docs/ReleaseNotes/assemble.py:2394-2402 | a written marker line scans back as its record if and only if the name has no CR |
| NoteSections.Closed | docs/ReleaseNotes/assemble.py:2379-2388 | a published text ends in exactly one added newline or the one it had |
| NoteSections.ScanOfSection | docs/ReleaseNotes/assemble.py:2379-2402 | folding one fragment whose name has no CR into any file adds exactly its own record to what a scan finds |
| NoteSections.ScanOfCrSection | docs/ReleaseNotes/assemble.py:2379-2402 | folding in a fragment whose name has a CR adds nothing to what a scan finds |
| NoteSections.ScanOfBuild | docs/ReleaseNotes/assemble.py:2332-2402 | scanning the built file yields the old records, then one (digest, name) per fragment whose name has no CR, in order |
| NoteSections.SectionReadsBackIff | docs/ReleaseNotes/assemble.py:2379-2402 | a section's record reads back from the built file if and only if the name has no CR |
| NoteSections.PresentIffHolds | docs/ReleaseNotes/assemble.py:1537-1599 | for a body that is not blank, the section check accepts exactly when the rewritten body stands, up to CRLF, directly before its own marker with at most one commit note between |
| NoteSections.BuiltSectionPresent | docs/ReleaseNotes/assemble.py:1537-1599 | every section the builder writes, dated or undated note, is accepted by the section check |
| NoteSections.PresentAfterAppend | docs/ReleaseNotes/assemble.py:1537-1599 | an accepted section is still accepted after any bytes are appended |
| NoteSections.PresentInCrlfCopy | docs/ReleaseNotes/assemble.py:1575-1599 | a section of an LF file is still accepted in its CRLF copy |
| NoteSections.BuildHoldsAll | docs/ReleaseNotes/assemble.py:2332-2392 | after a build every fragment of it passes the section check, whatever is built after it |
| NoteSections.BuildGrows | docs/ReleaseNotes/assemble.py:2332-2392 | a build only appends to the file it starts from |
| NoteDuplicates.CheckMarkerlessDuplicates | docs/ReleaseNotes/assemble.py:2266-2305 | the guard names exactly the fragments with evidence of a published copy and no marker of that name, and refuses exactly when there is one, or a fragment without a marker meets a file that is not readable text, and the run is not forced |
| NoteDuplicates.CanBeCompared | docs/ReleaseNotes/assemble.py:173-217 | a file is readable exactly when it is UTF-8 without a NUL once its marker lines are blanked |
| NoteDuplicates.BodyIsTrimmed | docs/ReleaseNotes/assemble.py:2277-2283 | the compared block is what follows the first heading of the published lines, all of it but the blank lines at its two ends |
| NoteDuplicates.PublishedBodyFound | docs/ReleaseNotes/assemble.py:146-163 | a file holding, on line boundaries, a text with the same body block is recognised from the later version's body alone |
| NoteDuplicates.EditedOpeningIsRefused | docs/ReleaseNotes/assemble.py:2266-2305 | a version whose published lines after the first heading are those of the published one, and weigh at least 40, is refused whatever happened to the heading, byte-order mark or prose above it |
| NoteDuplicates.BuiltIsSuspect | docs/ReleaseNotes/assemble.py:2266-2305 | every text that opens with a heading is recognised, by it, in any file it was built into, whatever stands around it |
| NoteBlanks.WithoutMarkers | docs/ReleaseNotes/assemble.py:173-193 | the in-place loop leaves the text with each marker line blanked and every ending kept |
| NoteBlanks.BlankedLines | docs/ReleaseNotes/assemble.py:173-193 | every line is where it was and as long as it was, so an offset is still an offset into the file; only marker lines change |
| NoteBlanks.NoMarkerLeft | docs/ReleaseNotes/assemble.py:173-193 | nothing of the blanked text still reads as a marker |
| NoteDisk.Disk.SetAside | docs/ReleaseNotes/assemble.py:2613-2621 | a rename into the quarantine: it happens, whole, exactly when a step is left and the name is in the pool |
| NoteDisk.Disk.Remove | docs/ReleaseNotes/assemble.py:2648-2658 | an unlink in the quarantine, recorded with the bytes it destroyed and the dated file at that moment |
| NoteDisk.Disk.Install | docs/ReleaseNotes/assemble.py:2555-2565 | the one rename that publishes |
| NoteAssembly.VouchedMeansPresent | docs/ReleaseNotes/assemble.py:45-46 | a vouched removal destroyed only bytes whose own section stood in the dated file then, unless these bytes collide with the text the run read, or that file with the one the run answers with |
| NoteAssembly.SelectIsExact | docs/ReleaseNotes/assemble.py:1489-1535 | the split into recorded and missing fragments loses nothing, adds nothing, keeps the order |
| NoteAssembly.Assembly.Discover | docs/ReleaseNotes/assemble.py:955-984 | the day's names, sorted, exactly; refused exactly when a name holds an LF |
| NoteAssembly.Assembly.Snapshot | docs/ReleaseNotes/assemble.py:1240-1318 | each fragment as read, with its digest, and accepted by the marker check |
| NoteAssembly.Assembly.ScanMarkers | docs/ReleaseNotes/assemble.py:1331-1411 | the records of the dated file, exactly the digests filed in any dated file, and the identities later checks compare |
| NoteAssembly.Assembly.Classify | docs/ReleaseNotes/assemble.py:1489-1535 | recorded fragments and missing ones; ambiguous exactly when a missing one's digest is filed anywhere and the run is not forced |
| NoteAssembly.Assembly.AssertSectionsPresent | docs/ReleaseNotes/assemble.py:1537-1612 | passes exactly when every recorded fragment's section is present |
| NoteAssembly.Assembly.ClearRecorded | docs/ReleaseNotes/assemble.py:1614-1683 | one round of the first clearing loop: at most one removal, whatever others write, and that one of this fragment, with the digest of the text this run read, its section standing in the copy of the dated file this run read |
| NoteAssembly.Assembly.ClearAlreadyAssembled | docs/ReleaseNotes/assemble.py:1614-1683 | every unlink of the loop is vouched for by one of these fragments and the copy of the dated file this run read; with nothing else writing, exactly the cleared prefix has left the pool and a refusal changed nothing |
| NoteAssembly.Assembly.BuildReplacement | docs/ReleaseNotes/assemble.py:2332-2392 | the loop writes exactly the old bytes plus each section in order |
| NoteAssembly.Assembly.GateAndInstall | docs/ReleaseNotes/assemble.py:2417-2565 | at most one publication, of the verified replacement over the file that was read, with every source still in the pool |
| NoteAssembly.Assembly.Publish | docs/ReleaseNotes/assemble.py:2528-2589 | done means the dated file is the built bytes; otherwise it is what it was |
| NoteAssembly.Assembly.Clear | docs/ReleaseNotes/assemble.py:2591-2668 | every unlink is vouched for by one of these fragments and the bytes this run built, `consumed` and `quarantined` together are exactly what was moved, whatever others write |
| NoteAssembly.Assembly.Run | docs/ReleaseNotes/assemble.py:2742-2800 | with others writing: only removals vouched for by this run's snapshot and by the file it read or built, and at most one publication, of its own fragments over the file it read; alone, with any names and forced or not: wherever it is cut off the tree is what one run may make of it, and done means that nothing of the day is left |
| NoteAssembly.RunsOfOneDay | docs/ReleaseNotes/assemble.py:2742-2800 | exactly once under crashes: over any runs of a day, each cut off after any number of file steps, each with its own commit notes, and forced or not unless a name of the day has a CR, every text is in the pool, the quarantine or the dated file as its section; once a run is done the file is the old one plus each missing section once, in order, and the pool holds nothing of the day |
| NoteRuns.OneRunIsRecoverable | docs/ReleaseNotes/assemble.py:2266-2305 | one run is a step of a day's history: what it publishes a file with it in would not let in again, unless the run was forced with a name that has a CR |
| NoteRuns.RecoverableTrans | docs/ReleaseNotes/assemble.py:2742-2800 | a restart composes: what a later run makes of what an earlier one left is what one history can make of the start |
| NoteRuns.NothingLeftToFold | docs/ReleaseNotes/assemble.py:1489-1535 | after a publication everything a later run of the day could fold in is refused: the file shows it, under a name with a CR |
| NoteRuns.WhatCompletedMeans | docs/ReleaseNotes/assemble.py:2379-2392 | a completed day's file is the old one with exactly the missing sections appended in order |
| NoteRuns.CompletedStays | docs/ReleaseNotes/assemble.py:2742-2800 | later runs of a completed day leave its file alone |
| NoteRuns.FoldIsRememberedIff | docs/ReleaseNotes/assemble.py:966-976 | the file tells a later run it holds a section if and only if the name has no CR |
| NoteRuns.FoldedAgainIff | docs/ReleaseNotes/assemble.py:2266-2305 | a section published by a run that was cut off can be folded in a second time if and only if the later run is forced and the name has a CR |
| NoteRuns.FoldedTwice | docs/ReleaseNotes/assemble.py:2266-2305 | such a history, for any name with a CR: published, cut off, forced; and no unforced run makes the second step |
| AlertStore.GuardIsExact | apps/agent/src/alertChannelChange.ts:216-241 | the two counts of the guard hold exactly when the linked rows in scope are the observed ones |
| AlertStore.UnlinkLeaves | apps/agent/src/alertChannelFlow.ts:135-147 | an unlink batch commits exactly when the rows are still those read, and then open rows in scope are cleared, waiting rows keep their chat with one fresh pending unlink each in order, everything else pending in scope is superseded, and nothing else changed |
| AlertStore.UnlinkKeepsTracks | apps/agent/src/alertChannelFlow.ts:135-147 | after it nothing else in scope is pending and each pending change is about the chat linked now, one a row |
| AlertWrites.LinkLeaves | apps/agent/src/db.ts:483-506 | an immediate link commits exactly when the row is as read, and then always writes: its own condition never fails behind the guard; nothing stays pending for the row |
| AlertWrites.MoveLeaves | apps/agent/src/alertChannelChange.ts:156-200 | a move that waits changes no chat and leaves exactly one pending change for the row, naming the chat linked now |
| AlertWrites.ApplyLeaves | apps/agent/src/alertChannelChange.ts:392-443 | applying changes the row exactly when the pending guard passes; the old chat is then always the linked one |
| AlertWrites.CancelLeaves | apps/agent/src/alertChannelChange.ts:328-342 | CANCEL closes exactly the pending changes of the rows linked to that chat |
| AlertWrites.NoticeKeepsTracks | apps/agent/src/alertChannelChange.ts:280-291 | starting a wait keeps the invariant: it ends exactly a delay after the notice |
| AlertWrites.SweepKeepsTracks | apps/agent/src/alertChannelChange.ts:446-451 | pruning drops no pending change |
| AlertWrites.SaveLeaves | apps/agent/src/db.ts:127-148 | a settings save leaves every chat alone exactly when it carries none, or the linked one |
| AlertProtocol.WaitOf | apps/agent/src/alertChannelChange.ts:105-120 | a row's wait is none exactly when the account is not protected, and else the chain's delay, or the nearer end of 0 to five days when it is outside |
| AlertProtocol.EveryStep | apps/agent/src/alertChannelFlow.ts:75-339 | every step of every process keeps the invariant and removes a chat only in one of the two ways |
| AlertProtocol.EveryRun | apps/agent/src/alertChannelFlow.ts:75-339 | the invariant holds in every reachable state: at most one pending change per row, its old chat the linked one, every started wait started by an accepted notice |
| AlertProtocol.NoSilentRemoval | apps/agent/src/alertChannelFlow.ts:75-102 | in every run a chat leaves its row only by a batch whose process read the row with that chat and then read its account as unprotected, or by applying a change about it whose id that chat accepted in a notice at least the change's delay before |
| AlertHistory.RemovalHistory | apps/agent/src/alertChannelFlow.ts:123-147 | behind every immediate removal of a run there are a step in which the same process read the row with that chat linked, and a later one in which it read that the account is not protected |
| AlertHistory.LinkedAtAnswerIff | apps/agent/src/alertChannelFlow.ts:123-147 | at that answer the chat was linked exactly when no step since the read had taken it away and left it away; each such step was a justified removal, and a handshake or a due move linked the chat again before it was cleared |
| AlertHistory.AnswerWhileAway | apps/agent/src/alertChannelFlow.ts:123-147 | a run from any start in which the answer is read while another chat is linked, and the first chat is cleared on it |
| AlertProtocol.SettledStays | apps/agent/src/alertChannelChange.ts:328-342 | a change once closed is never pending again, and one once told never has to be told again |
| AlertProtocol.StatedTimeIsStored | apps/agent/src/alertChannelFlow.ts:85-100 | the time an accepted notice states is the stored one exactly when the wait started with that notice |
| AlertProtocol.MarkStoresTheStatedTime | apps/agent/src/alertChannelChange.ts:280-291 | when a mark lands, a pending change it names has the stated time exactly when no other notice had started its wait at another time |
| AlertHistory.StatedTimeMayBeLost | apps/agent/src/alertChannelFlow.ts:301-321 | a run from any start: a tick lists a change before its request's notice is out, both notices are accepted, and the stored time is the tick's |
| AlertQueue.FirstOf | apps/agent/src/alertChannelChange.ts:349-367 | the first fifty of the eligible changes in order, all of them when there are fewer |
| AlertRetry.RunKeepsStamps | apps/agent/src/alertChannelChange.ts:293-307 | over any run a change still to be told keeps its stamp, unless it is new or was stamped in that run |
| AlertRetry.TriedIsStamped | apps/agent/src/alertChannelChange.ts:293-307 | a change a run tried to tell, and that still is to be told at its end, carries a stamp of that run |
| AlertRetry.LineShrinks | apps/agent/src/alertChannelChange.ts:309-324 | from one tick's list to the next, a tick that does not reach a waiting change shortens the line ahead of it by fifty, less the new changes not tried yet |
| AlertRetry.NeverStarves | apps/agent/src/alertChannelChange.ts:309-324 | in every run in which ticks follow one another with a working sender, a change with at most n others ahead of it is tried by tick n / (50 - m) counting from 0, if it still has to be, where at most m new changes have not been tried when a tick lists and no request still running is older than the retry wait |
| AlertFlows.RowsOf | apps/agent/src/alertChannelChange.ts:125-151 | the read returns exactly the linked rows in scope, one a chain |
| AlertFlows.Agent.GuardedBatch | apps/agent/src/alertChannelFlow.ts:258-271 | a batch whose guard fails writes nothing; else it commits exactly its step |
| AlertFlows.Agent.ProtectionByRow | apps/agent/src/alertChannelChange.ts:105-120 | every row's answer was read from the chain after the rows were, or there is no result |
| AlertFlows.Agent.NotifyOldChat | apps/agent/src/alertChannelFlow.ts:75-102 | told means the chat accepted a notice naming these changes and their waits have started; a refused attempt stamps them with its time; one of the two steps is taken for each change |
| AlertFlows.Agent.RequestUnlink | apps/agent/src/alertChannelFlow.ts:123-168 | unknown means nothing was written in any attempt, because an answer could not be read or three guards failed; done means one commit that left exactly what an unlink leaves, a notice tried for every waiting row, and a reply with a time for exactly those whose chat accepted it |
| AlertFlows.Agent.Immediate | apps/agent/src/alertChannelFlow.ts:193-200 | linked means one commit with the new chat, nothing pending and no other row changed; else nothing was written |
| AlertFlows.Agent.RequestRelink | apps/agent/src/alertChannelFlow.ts:183-253 | linked, pending or unknown: one commit that linked, one that only recorded the move and a notice tried, or nothing written because the answer could not be read or three guards failed |
| AlertFlows.Agent.CancelFromChat | apps/agent/src/alertChannelFlow.ts:274-296 | a private CANCEL closes every pending change of the rows linked to the chat, and says how many; a group's changes nothing |
| AlertFlows.Agent.RetryNotices | apps/agent/src/alertChannelFlow.ts:301-321 | the tick lists the first fifty untold changes whose retry is over, and its own steps start the wait or stamp the refusal of every one of them |
| AlertFlows.Agent.ApplyDueChannelChanges | apps/agent/src/alertChannelFlow.ts:301-339 | the tick is a round of the retry order, every change of its first list tried and stamped with its own time, and no change of the second is left pending; the count is of the rows changed, at most fifty, each by a change pending and due at that moment, from its old chat to what it asked for; no closed change past its retention is left |
| PreNotifyPass.PlanIsNext | apps/agent/src/periodicPreNotify.ts:1482-1511 | a tick continues the recorded pass or begins the next number |
| PreNotifyPass.TickKeepsInv | apps/agent/src/periodicPreNotify.ts:1705-1745 | whatever writes of a tick land, every stored mark stays at most the recorded pass and the record moves by at most one |
| PreNotifyPass.EveryRunKeepsInv | apps/agent/src/periodicPreNotify.ts:757-850 | the same from no marks and no record, over any ticks, lost rows and failed writes |
| PreNotifyPass.LeftOutWasExamined | apps/agent/src/periodicPreNotify.ts:1474-1511 | a due loan is left out exactly when the open pass's own mark covers its current period, and that mark was committed after this pass began and before any other did |
| PreNotifyPass.NoSkippedLoan | apps/agent/src/periodicPreNotify.ts:757-850 | both, in every state any run of ticks can reach |
| PreNotifyPass.ClosesOnlyWhenDone | apps/agent/src/periodicPreNotify.ts:833-848 | a pass closes only when every candidate of that tick carries its number for its current period |
| PreNotifyPass.TickProgress | apps/agent/src/periodicPreNotify.ts:781-850 | a tick whose reads and writes succeed closes its pass, or leaves it open with fewer loans left |
| PreNotifyPass.ClosesWithin | apps/agent/src/periodicPreNotify.ts:781-850 | a window of n loans that none enters is passed through within n such ticks |
| PreNotifyReminder.MessagedIsStampedIff | apps/agent/src/periodicPreNotify.ts:1200-1266 | a visit that may have told anybody finishes its checkpoint exactly when the lender's row could be read, the stamp landed, and it did not rest on throwing pushes alone while somebody was owed |
| PreNotifyReminder.LeftOpenIff | apps/agent/src/periodicPreNotify.ts:2102-2112 | without throws, a checkpoint is left open exactly when nothing was delivered, nothing is unknown, and a party is still owed |
| PreNotifyReminder.OneReminder | apps/agent/src/periodicPreNotify.ts:1950-1978 | of all the visits of a loan for one checkpoint, over any ticks, none that may have told anybody and settles is followed by another |
| PreNotifyReminder.ToldAgainIff | apps/agent/src/periodicPreNotify.ts:1200-1266 | after a visit that may have told somebody, some continuation tells of the same checkpoint again if and only if the visit did not settle |
| PreNotifyReminder.LenderFailureRepeats | apps/agent/src/periodicPreNotify.ts:2224-2249 | whatever told the borrower, with the lender's row unreadable the checkpoint may be told again |
| PreNotifyReminder.ThrownPushRepeats | apps/agent/src/periodicPreNotify.ts:2102-2112 | so it may when the one push threw and the other rail put the party off |
| PreNotifyReminder.CostOf | apps/agent/src/periodicPreNotify.ts:2216-2375 | one party is charged at most four requests |
| PreNotifyLane.CandidatesInWindow | apps/agent/src/periodicPreNotify.ts:1950-1978 | exactly the rows due in the window and not stamped, each once, by deadline, checkpoint and id |
| PreNotifyLane.Lane.PushIfSubscribed | apps/agent/src/periodicPreNotify.ts:2216-2437 | the step by step charges and facts are those of the party's replies |
| PreNotifyLane.Lane.MessageLoan | apps/agent/src/periodicPreNotify.ts:1200-1266 | one visit, its exact charge, its stamp exactly when decided and landed, and the mark still affordable after it |
| PreNotifyLane.Lane.MessageBatch | apps/agent/src/periodicPreNotify.ts:1071-1280 | exactly the loans the chain calls eligible are messaged about, in order; at least one loan is examined unless a query throws; it stops only at its end or for want of allowance, stamps no other loan, and leaves a request for its mark |
| PreNotifyLane.Lane.MarkExamined | apps/agent/src/periodicPreNotify.ts:1705-1745 | one request, one D1 batch, whole or not at all |
| PreNotifyLane.Lane.Scan | apps/agent/src/periodicPreNotify.ts:781-850 | the loop leaves the tables exactly as its batches' writes make them, examines at least one loan when its first read answers, and stops only when all is examined, the allowance cannot act on one more batch, three were read, a read failed or a query threw |
| PreNotifyLane.Lane.Open | apps/agent/src/periodicPreNotify.ts:441-688 | the opening reads go on exactly when every gate passes, each charged only when the one before let it be made, and leave room for the query, a batch read, one loan and the mark |
| PreNotifyLane.Lane.PreNotifyChain | apps/agent/src/periodicPreNotify.ts:423-850 | admitted exactly when the opening reads and one loan fit, the probe of a cold chain included; refused costs nothing; it reaches its loop exactly when the gates pass, the query answers and a loan is due; the tables move by one tick of the pass; one loan at least is examined when the status read answers |
| PreNotifyLane.Lane.RunPeriodicPreNotify | apps/agent/src/periodicPreNotify.ts:313-361 | one invocation never charges more than 40, always admits the leading chain, moves the rotation by one, and keeps every chain's pass in order |
| PreNotifyLane.RotationOf | apps/agent/src/periodicPreNotify.ts:1346-1369 | a stored place that is an index into the chains is that index; one that is no number, or below zero, is the first chain; the result is always an index |
| PreNotifyLane.EveryChainLeads | apps/agent/src/periodicPreNotify.ts:1346-1411 | every chain leads once in every n invocations whose rotation reads and writes succeed |
| PreNotifyLane.ClosesWithinTurns | apps/agent/src/periodicPreNotify.ts:313-361 | rotation and pass together: with n chains, a window of k loans that none enters is passed through within k times n invocations, if the chain ticks when it leads and its ticks succeed |
| SignedRequests.Ledger.Claim | apps/agent/src/signedRequestUse.ts:62-86 | the batch drops expired rows and inserts unless present; won exactly when it was absent after that |
| SignedRequests.Ledger.Authorise | apps/agent/src/linkAuth.ts:234-276 | accepted exactly when in the window, signed, answered and won; nothing unsigned touches the ledger |
| SignedRequests.AtMostOnce | apps/agent/src/signedRequestUse.ts:34-37 | within the margin no message is accepted twice, however presentations and deletions interleave |
| SignedRequests.BeyondTheMargin | apps/agent/src/signedRequestUse.ts:34-37 | beyond it, a run that accepts one twice |
| SignedRequests.OnceIff | apps/agent/src/linkAuth.ts:193-195 | at most once in every run if and only if clock difference plus delay is at most 60 seconds |
| LegalHolds.Register.HandleLegalHold | apps/agent/src/diagErasure.ts:810-886 | the answer, and one transaction over register and trail exactly when it is done |
| LegalHolds.Register.HandleErasure | apps/agent/src/diagErasure.ts:353-366 | deletes exactly what the authority covers and no hold protects |
| LegalHolds.Register.PruneOld | apps/agent/src/diagRecord.ts:428-437 | deletes exactly the old records no hold protects |
| LegalHolds.DetailReadsBack | ops/offchain-data-warm/scripts/restore-from-archive.mjs:1163-1176 | the restore script's pattern reads back the flag and note any disclosure row was written with |
| LegalHolds.EveryRunAgrees | apps/agent/src/diagErasure.ts:625-647 | over any run the register is the fold of its trail in commit order, and no disclosure row ever refers to a wallet without a hold |
| LegalHolds.ReconcilesIff | ops/offchain-data-warm/scripts/restore-from-archive.mjs:1085-1198 | after any run the restore script reports nothing about a wallet exactly when its rows, sorted by their stamps, replay to the same hold as in commit order |
| LegalHolds.ReplayRebuildsHolds | ops/offchain-data-warm/scripts/restore-from-archive.mjs:1085-1198 | after any run it reports nothing about a wallet, while the database clock does not step back between two actions on that wallet |
| LegalHolds.InversionIsReportedIff | ops/offchain-data-warm/scripts/restore-from-archive.mjs:1102 | of a step back of the clock between a wallet's last two rows, exactly the pairs that are reported; and wherever it was, an unseen one stays unseen |
| LegalHolds.ClockBackMisleads | ops/offchain-data-warm/scripts/restore-from-archive.mjs:1102 | a place and a lift with any earlier stamp are reported |
| LegalHolds.HeldRecordsKept | apps/agent/src/diagRetention.ts:17-19 | over any run, a record whose wallet stays held is never removed |
| FormulaMarkers.JoinRun | contracts/script/check-commitment-formula.py:222-238 | a maximal run of comment lines joined with single spaces, each line's text where its offset says, its markers exactly those of its lines |
| FormulaMarkers.LineOf | contracts/script/check-commitment-formula.py:241-248 | the line whose start is the last at or before the offset |
| FormulaMarkers.LineOfInvertsJoin | contracts/script/check-commitment-formula.py:241-248 | any place of a line's text, or the space after it, is attributed to that line |
| FormulaMarkers.EveryPlaceHasALine | contracts/script/check-commitment-formula.py:222-248 | every place of the joined text is in one of the lines so |
| FormulaMarkers.BestMarker | contracts/script/check-commitment-formula.py:302-308 | the nearest unused marker within three lines, the upper of two as near, if there is one |
| FormulaMarkers.FindViolations | contracts/script/check-commitment-formula.py:293-315 | every match reported once, in order of place, exempt exactly when its line is claimed and with its marker's reason; else every marker in reach is spent on another line; each claim took the best marker left |
| FormulaMarkers.OneMarkerOneLine | contracts/script/check-commitment-formula.py:253-315 | claims are one to one between markers and lines, each within three lines |
| FormulaMarkers.OneVerdictALine | contracts/script/check-commitment-formula.py:256-315 | all matches of one line get the same verdict |
| OpenSeaOrder.Items | apps/agent/src/openseaListingBinding.ts:127-136 | the list loop returns every item parsed, in order, or nothing when the list is empty, over 32 or holds one that does not parse |
| OpenSeaOrder.UintReadsBack | apps/agent/src/openseaListingBinding.ts:47 | a printed number reads back exactly when it has at most 78 digits |
| OpenSeaOrder.UintPrintsBack | apps/agent/src/openseaListingBinding.ts:101-103 | an accepted decimal string is the one its value prints as |
| OpenSeaOrder.ParseOfPrint | apps/agent/src/openseaListingBinding.ts:187-211 | parsing the printed form of any components the parser can return gives them back |
| OpenSeaOrder.PrintOfParse | apps/agent/src/openseaListingBinding.ts:146-182 | for every accepted body the printed hashed fields are the submitted ones, and the item count is that of the consideration |

## Left out

- Of the heading conformance of fragments (`check_heading_conformance`) the model keeps that a text which does not open with an ATX heading is refused; the rules on the heading's level and number may refuse any fragment, before anything is written.
- Dating fragments from git: the names held for other days are given, the same ones to every run of a day; each run has its own commit notes.
- File modes, owners, device checks, the lock file, signal masking, message text and escaping in the assembler.
- The window between building the replacement and hashing it: the replacement is writable by others only during the flush before the final gate.
- The extraction of a comment's text from a Solidity line, and the nine patterns themselves: their lines and matches are inputs, and any match set is allowed.
- The handshake codes of `telegram_links`, chat locales and message wording; a code only links, so deleting it changes no chat.
- The order of rows in a read of linked rows: the proofs hold for every order.
- `linkTelegram` and `upsertThresholds` of `apps/keeper/src/db.ts` also write the chat column but have no caller; the protocol theorem is for the writers that have one.
- Telegram, Push, RPC and OpenSea calls: arbitrary replies of their result types. Pause credit, cadence intervals and the chain's verdict on a loan are uninterpreted.
- The operator summaries of the pre-notify lane and its counters.
- Signature recovery and request parsing for hold actions and alert requests: a verdict and a request's fields are inputs.
- The order check against the chain (`bindListingToProtocol`): a sequence of reads with single-branch gates.
- NoteAssembly.RunsOfOneDay: when a run of the history is forced, for days whose names have no CR, because with one it is false (`FoldedTwice`).
- NoteSections.PresentIffHolds: says nothing of a blank body, which the code accepts unsearched.
- AlertRetry.NeverStarves: that a request is over within the retry wait of thirty minutes, and how many requests are between their write and their notice when a tick lists, are facts of the platform that the theorem takes as `OthersAfter` and `m`.
- PreNotifyPass.EveryRunKeepsInv: for at most 2^53 - 1 ticks, beyond which a pass number is no longer a safe integer and the code reads its record as unreadable.
- PreNotifyLane.ClosesWithinTurns: that the leading chain's reads answer and its writes land is taken from the endpoints.
