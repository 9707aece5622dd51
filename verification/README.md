# PicoClaw: verified models of the stateful core

PicoClaw is a personal AI agent. This project models the parts of it that keep state over time
and proves what they promise, in Dafny. `dafny verify dfyconfig.toml` checks all of it. `Common`
holds what several modules share.

- **Message splitter** (`Text`, `Splitter`, `SplitMessage`, `FenceBalance`, `Termination`,
  `SplitterLaws`, `CutPlaces`). Long replies are cut to a channel's limit. A code block that does not
  fit is closed and re-opened, so the buffer is rebuilt in mid-run. `SplitMessage` is the loop as it
  runs, proved equal to `Split`; about `Split`: where it cuts, on which texts it ends, the length
  bound, fence balance, and conservation.
- **Provider protocol** (`Messages`, `Sanitizer`, `SanitizerLaws`, `Survivors`, `Turns`, `TurnLog`,
  `AgentLoop`). The two-pass history filter and exactly what it keeps; and the turn loop with parallel
  tools, retries and emergency compression, as a log of requests in which each calls for the next.
  Every request is acceptable to a strict provider; in a turn without compression each also mirrors
  what the session stores at that moment.
- **Session store** (`SessionLog`, `CrashLaws`, `TornAppends`, `SessionManager`, `Refinement`,
  `Migration`). A line log with a metadata record, a crash between any two writes or within an
  append; its refinement of the in-memory store; and the resumable import of legacy snapshots.
- **Cooldowns and fallback** (`Cooldown`, `CooldownLaws`, `Fallback`). Backoff with a reset window,
  its record after any run, exactly which windows are safe, and the chain over it.
- **Scheduler** (`Cron`, `CronById`, `CronRuns`, `CronLiveness`, `CronOneShot`, `CronInterval`,
  `CronPolicy`). The service's operations; a step machine in which ticks, handlers, API calls, lost
  saves, failed loads, crashes and restarts interleave; that no job is forgotten; and exactly which
  saves the promises not to start one too often or too early rest on.
- **Search cache** (`Trigrams`, `LruOrder`, `SearchCache`, `CacheRuns`). Trigram fingerprints sorted
  and compacted in place, a two-pointer Jaccard merge, and an LRU order judged by the log of uses.
- **Prompt cache** (`DiskHistory`, `PromptCache`). A prompt validated by file times, on a disk that
  others write to between any two system calls.
- **Media index** (`MediaStore`, `MediaRuns`). Three maps that describe one relation, and the files
  behind it, under interleaved stores, releases and clean-ups.

Code that changes things step by step is a class or a method with loops, proved against a function
of the old state; what the system promises is proved about those functions and over whole runs.
Time is an integer that does not run backwards, in nanoseconds or milliseconds as in the code. JSON
is an encoding that reads back; `WriteFileAtomic` and a rename are single atomic writes, and so is
the append of a line, except in `TornAppends`. Replies of providers, tools, clocks, generated ids and
parsers are parameters. Locks are not modelled as such: an operation that holds its lock throughout
is one step, and code that runs outside a lock is a step of its own.

Premises, each stated where it is used:

- Splitting ends. For trimmed texts whose fences start lines, and limits of 10 runes or more,
  `EndsIffBlocksFit` says exactly when; `FittingHeadersEnd` is a condition for any text. Balance also
  needs every fence to start a line, see `MidLineFenceIsTorn`.
- A log append begins where a line begins, see `AppendReadsIffClean` and `TornSwallowsNext`.
- Session keys in use do not collide as file names, see `CollidingKeysShareASession`.
- A cron tick's save succeeds, or those of finishing and removing a job do (one-shot jobs); the
  saves of finishing and removing succeed and sums fit 64 bits (interval jobs). `OnceExactly`,
  `IntervalsExactly` and `NextRunAheadIffNoWrap` show that less will not do. Job ids are unique.
- File writes carry strictly increasing times (prompt cache); a file that appears and disappears
  around a build is missed, and nothing else is, see `HitEqualsRebuild` and `FlickerIsMissed`.
- Generated media refs are unique. That every ref has its file needs that a path in use is not
  stored twice, see `FilesSurviveIffUnshared`; that the maps agree does not.

Where the code does less than its comments say, the models follow the code. Clearing the next run
"to avoid duplicate execution" (`pkg/cron/service.go:182`) does so only if that, or the end of the
job, is saved. Skipping a malformed trailing line (`pkg/memory/jsonl.go:130`) loses the next message
too when that is appended to the same line. The four cases of `pkg/agent/context.go:361-366` take a
path absent then and now for unchanged, though it may have been there in between. Releasing a scope
(`pkg/media/store.go:34-35`) also deletes files that refs of other scopes still name.

## Model

| member | source | states |
|---|---|---|
| `SplitMessage.SplitMessage` | pkg/channels/split.go:13-140 | for a positive limit and every text the splitter comes to an end on (`Termination.EndsIffBlocksFit`), the loop, with its moving start and its buffer rebuilt in mid-run, returns exactly `Splitter.Split` of the text; for a limit of zero or less the text itself, or nothing when it is empty |
| `SplitMessage.FindCut` | pkg/channels/split.go:39-136 | where the next chunk ends, and whether its block is closed and re-opened: the cut `NextCut` chooses among its five outcomes, at any offset of the buffer |
| `SplitMessage.CutOpenBlock` | pkg/channels/split.go:64-124 | how a block that cannot be sent whole is cut: inside at a newline or the limit, before the block, or as a last resort inside |
| `SplitMessage.FindHeader` | pkg/channels/split.go:67-77 | the trimmed header line of a fence and where that line ends, with the bare fence when no newline follows |
| `SplitMessage.FindNaturalEnd` | pkg/channels/split.go:42-51 | last newline in a window of 200, else last gap in a window of 100, else the limit; always past the start and within the limit |
| `SplitMessage.SendOne` | pkg/channels/split.go:91-98 | one turn of the loop sends the chunk and leaves the rest that the cut prescribes |
| `SplitMessage.SkipBlanks` | pkg/channels/split.go:133-136 | advancing `start` passes exactly the leading blanks |
| `SplitMessage.FindLastUnclosedCodeBlockInRange` | pkg/channels/split.go:144-163 | the fence still open at the end of a range, or -1 |
| `SplitMessage.FindNextClosingCodeBlockInRange` | pkg/channels/split.go:166-174 | the index just past the first fence in a range, or -1 |
| `SplitMessage.FindNewlineFrom` | pkg/channels/split.go:177-185 | the first newline from an index on, or -1 |
| `SplitMessage.FindLastNewlineInRange` | pkg/channels/split.go:188-197 | the last newline in the search window, or one less than the start |
| `SplitMessage.FindLastSpaceInRange` | pkg/channels/split.go:200-208 | the last space or tab in the search window, or one less than the start |
| `Splitter.CutBounds` | pkg/channels/split.go:39-136 | room and progress of any cut: a plain one takes 1 to `maxLen` runes; a re-opening one leaves 5 runes of room, and takes more than the header it puts back if that has at most `maxLen - 7` runes |
| `Splitter.CutFacts` | pkg/channels/split.go:39-136 | the same when all headers fit |
| `Splitter.RestFits` | pkg/channels/split.go:91-98 | when all headers fit the remaining text is strictly shorter even when a header is injected, and its own headers still fit |
| `Splitter.FittingHeadersEnd` | pkg/channels/split.go:32-137 | when every trimmed header has at most `maxLen - 7` runes, fences in mid-line included, there are no more cuts than runes |
| `Termination.EndsIffBlocksFit` | pkg/channels/split.go:32-137 | a text whose fences start lines, trimmed, is split to an end if and only if each of its blocks ends within `maxLen` runes of its opening, or has a trimmed header of at most `maxLen - 7` runes, or opens within `maxLen` runes of the end of the text |
| `Termination.FirstBlockDecides` | pkg/channels/split.go:100-120 | for a text that begins with a fence and whose later blocks fit: splitting ends if and only if the text fits, or the next fence ends within `maxLen`, or the header leaves room |
| `Termination.StuckNeverEnds` | pkg/channels/split.go:100-120 | no number of cuts uses up a text with a block that does not fit: the cuts stop before it, then put its header back whole for ever |
| `Termination.FittingStays` | pkg/channels/split.go:91-136 | a cut of a text whose blocks fit leaves a strictly shorter one whose blocks fit: the termination measure, the re-opened header included |
| `FenceBalance.ChunksAreBalanced` | pkg/channels/split.go:53-131 | when every fence starts a line and splitting ends, each chunk but the last has an even number of fences, and the last has the parity of the whole text |
| `FenceBalance.BalancedIffSourceBalanced` | pkg/channels/split.go:53-131 | all chunks are balanced if and only if the text is |
| `FenceBalance.UnclosedParity` | pkg/channels/split.go:144-163 | the scan reports an open block exactly when it has passed an odd number of fences, and an even number lies before the fence it reports |
| `FenceBalance.CutIsEven` | pkg/channels/split.go:56-124 | whatever the headers, a plain cut takes an even number of fences, a re-opening cut an odd number, and no fence is torn |
| `SplitterLaws.ChunksFit` | pkg/channels/split.go:32-137 | whenever splitting ends every chunk, closing fence included, has between 1 and `maxLen` runes |
| `SplitterLaws.NothingLostOrDoubled` | pkg/channels/split.go:91-136 | deleting the injected closing fences and re-opened headers and joining the rest gives back the text, in order, up to white space |
| `SplitterLaws.PlainTextIsOnlyCut` | pkg/channels/split.go:39-136 | a text without fences is split to an end at any limit and gets nothing injected: its chunks alone carry all its non-blank runes, in order |
| `SplitterLaws.MidLineFenceIsTorn` | pkg/channels/split.go:42-51 | the line-start premise is needed: a balanced text with a fence in mid-line is cut through that fence and comes out unbalanced |
| `CutPlaces.WhereCutsFall` | pkg/channels/split.go:39-136 | where any cut of any text falls, told by the runes around it: the last newline of the 200 runes before the split point, else the last space or tab of 100, else the split point, which is half a small limit, 50 less than a middling one, nine tenths of a large one; with a block open there: after the fence that ends it within the limit, else inside it past its header, else before it, each under its condition |
| `CutPlaces.PlaceIsUnique` | pkg/channels/split.go:42-51 | these conditions leave one place only |
| `CutPlaces.WhatReopeningSends` | pkg/channels/split.go:85-124 | a re-opening cut sends the text up to it without trailing blanks and a fence on its own line; what is left begins with the whole trimmed line of the block's fence and goes on, on the next line, where the text was cut |
| `CutPlaces.FenceFreeIsCutWell` | pkg/channels/split.go:39-136 | every chunk of a text without fences ends at such a place, and the next begins after the blanks there |
| `CutPlaces.WordsStayWhole` | pkg/channels/split.go:42-51 | no word of such a text is cut unless it leaves no blank within 100 runes of the split point, or within the chunk |
| `Sanitizer.SanitizeHistoryForProvider` | pkg/agent/context.go:596-712 | both passes, with the index jump over dropped blocks, produce `Sanitized` |
| `Sanitizer.FirstPass` | pkg/agent/context.go:601-656 | the first loop: no system message, no tool result outside a block, no tool call after anything but a user or tool message |
| `Sanitizer.CheckAnswers` | pkg/agent/context.go:665-700 | the length of the tool run after a call, and whether every call id is found in it |
| `SanitizerLaws.SanitizedIsReady` | pkg/agent/context.go:596-712 | for any history: no system message, every tool-call message preceded by a user or tool message and fully answered by the unbroken run after it, tool messages only in such runs |
| `SanitizerLaws.FixedPointIffReady` | pkg/agent/context.go:596-712 | the filter leaves a history unchanged if and only if it was acceptable already |
| `SanitizerLaws.SanitizingTwiceChangesNothing` | pkg/agent/context.go:596-712 | the filter is idempotent |
| `SanitizerLaws.SanitizedOnlyDropsToolTraffic` | pkg/agent/context.go:596-712 | the result is a subsequence with every user and plain assistant message in it, in order |
| `SanitizerLaws.UserIsACutPoint` | pkg/agent/context.go:596-712 | the history before a user message and the history from it on are filtered independently |
| `Survivors.SanitizedIsExactly` | pkg/agent/context.go:596-712 | exactly what is kept, by position in the history: what the first pass lets in, except tool calls with an id that no result answers in the unbroken run after them, and the results of those; what it lets in is told by the message it let in before |
| `Survivors.RoundStays` | pkg/agent/context.go:658-709 | a complete round after a user message or a tool result that was let in stays, message by message, whatever precedes and follows it |
| `Survivors.RoundSurvives` | pkg/agent/context.go:658-709 | so the filtered history has the whole round in one piece |
| `AgentLoop.AgentSession.BuildMessages` | pkg/agent/context.go:494-594 | one system message, then the filtered history, then the user message unless it is blank; the result is acceptable to a provider |
| `AgentLoop.AgentSession.RunTools` | pkg/agent/loop.go:1254-1333 | whatever order the parallel tools finish in, result `i` belongs to call `i` |
| `AgentLoop.AgentSession.RunRound` | pkg/agent/loop.go:1221-1405 | the tool-call message and its results are appended alike to the request and to the stored history, and a stop is reported exactly when a tool asked for it |
| `AgentLoop.AgentSession.ForceCompression` | pkg/agent/loop.go:1491-1540 | the stored history becomes the note-carrying first message, the newer half, and the last message |
| `Turns.CompressionKeepsTheEnd` | pkg/agent/loop.go:1491-1540 | compression takes half of what lies between the first and the last message of any history it touches, keeps the end of it, and only adds to the first message's text |
| `Turns.CompressionKeepsTrigger` | pkg/agent/loop.go:1497-1529 | the user message that triggered the turn survives compression and the filter, as the last message |
| `AgentLoop.AgentSession.CallWithRetries` | pkg/agent/loop.go:1091-1158 | the reply is the provider's answer to the last request sent; the requests of the retry loop follow from one another (`TurnLog.RequestByRequest`), and an error is returned only when it is neither a timeout nor a context error, or the third in a row |
| `AgentLoop.AgentSession.RunLLMIteration` | pkg/agent/loop.go:994-1431 | requests, stored history and outcome of the loop, from the replies of provider and tools alone: the first request is the one given, each further one is what its predecessor and its reply call for, and the loop ends as the last reply demands, after at most `maxIterations` answers |
| `AgentLoop.AgentSession.RunAgentLoop` | pkg/agent/loop.go:849-935 | the same for a whole turn, with the first request built from the session, the default for an empty answer, and what is stored in the end; every request is acceptable; in a turn without compression that loads history, with a message that is not blank, each request is the system message and the filtered store, exactly when there are no attachments, and the turn leaves the message, complete rounds and the answer |
| `TurnLog.RequestByRequest` | pkg/agent/loop.go:1009-1428 | from any request to the next: tool calls that nobody stopped are carried out and shown after all that was shown before, alike in the store; a timeout repeats the request; a context error halves a history of more than four messages, keeps its end, and shows what the filter leaves of it; nothing else goes on |
| `TurnLog.FirstInParts` | pkg/agent/loop.go:868-890 | the first request part by part: the system prompt, the filtered history and the user message unless it is blank, each with its own attachments resolved |
| `TurnLog.OutcomeIs` | pkg/agent/loop.go:1160-1416 | what comes out, from the last reply: an error for an error; its content, else its reasoning, else the default, when it has no tool calls; the stop text exactly when one of its tools asked to stop; else the default, the rounds having run out |
| `TurnLog.FailsOnTheThird` | pkg/agent/loop.go:1091-1169 | a turn fails on an error that is neither a timeout nor a context error, or on the third error in a row |
| `TurnLog.AllAcceptable` | pkg/agent/loop.go:994-1431 | if the first request of a turn is acceptable to a provider, all are |
| `TurnLog.AllMirror` | pkg/agent/loop.go:994-1431 | without compression every request is the system message and the filtered stored history of its time |
| `TurnLog.RetryMirrors` | pkg/agent/loop.go:1148-1155 | and the compressed retry is that exactly |
| `AgentLoop.AgentSession.ResolveMedia` | pkg/agent/loop_media.go:27-122 | resolving attachments changes attachments only, nothing when there are none, and keeps the list acceptable |
| `Turns.RoundIsRound` | pkg/agent/loop.go:1221-1405 | a tool-calling reply is answered in full, whatever its tools return |
| `Turns.RoundInOrder` | pkg/agent/loop.go:1222-1405 | the round message by message: the reply as it came, then one result for each call, in call order, with what that call's own tool returned, or its error when that is empty |
| `Turns.RoundKeepsShape` | pkg/agent/loop.go:1249-1401 | appending a complete round to any well-shaped list keeps it well-shaped |
| `Turns.RoundKeepsReady` | pkg/agent/loop.go:1249-1401 | after a user message or a tool result a complete round is one the filter keeps |
| `Turns.InStepMirrors` | pkg/agent/loop.go:875-907 | the incrementally grown list is the system message and the filter applied to the stored history |
| `SessionLog.JSONLStore.AddMsg` | pkg/memory/jsonl.go:218-268 | one appended line, then the metadata; stopped after any write by a failing device |
| `SessionLog.JSONLStore.GetHistory` | pkg/memory/jsonl.go:270-290 | the decodable lines after the skip offset |
| `SessionLog.JSONLStore.GetSummary` | pkg/memory/jsonl.go:292-304 | the summary in the metadata |
| `SessionLog.JSONLStore.SetSummary` | pkg/memory/jsonl.go:306-325 | one metadata write |
| `SessionLog.JSONLStore.TruncateHistory` | pkg/memory/jsonl.go:327-361 | one metadata write with the count reconciled to the lines on disk |
| `SessionLog.JSONLStore.SetHistory` | pkg/memory/jsonl.go:363-394 | metadata first, then the log, each replaced atomically |
| `SessionLog.JSONLStore.Compact` | pkg/memory/jsonl.go:402-439 | nothing when nothing is skipped; else metadata first, then the log with the visible messages |
| `SessionLog.JSONLStore.ReplaceLog` | pkg/memory/jsonl.go:429-438 | the two writes of a replacement, cut where the device fails |
| `SessionLog.ReadMessages` | pkg/memory/jsonl.go:131-176 | the messages of the non-empty lines past the skip, corrupt lines counted but passed over |
| `SessionLog.CountLines` | pkg/memory/jsonl.go:181-200 | the number of non-empty lines |
| `CrashLaws.AppendIsAllOrNothing` | pkg/memory/jsonl.go:218-268 | a crash anywhere in an append leaves the history unchanged or with exactly the new message at its end |
| `CrashLaws.SetHistoryNeverLoses` | pkg/memory/jsonl.go:363-394 | a crash in a replacement shows the old history, every decodable line of the log, or the new history, by the write it stopped at |
| `CrashLaws.CompactKeepsVisible` | pkg/memory/jsonl.go:402-439 | compaction keeps what a reader sees; a crash between its writes can only bring truncated messages back in front of it |
| `CrashLaws.CompactLeavesOnlyVisible` | pkg/memory/jsonl.go:402-439 | finished, it leaves nothing hidden: the log holds the visible messages and no other line; with nothing to hide it writes nothing |
| `CrashLaws.TruncateKeepsLast` | pkg/memory/jsonl.go:327-361 | truncation keeps exactly the last `keepLast` visible lines, whatever stale count a crash left |
| `CrashLaws.LastOfEncoded` | pkg/memory/jsonl.go:350-357 | on a log without corrupt lines that is the last `keepLast` messages |
| `CrashLaws.CrashKeepsSound` | pkg/memory/jsonl.go:217-456 | the skip never exceeds the line count after a crash at any point of any operation |
| `CrashLaws.RunKeepsSound` | pkg/memory/jsonl.go:217-456 | nor after any sequence of operations and crashes |
| `CrashLaws.CrashIsLocal` | pkg/memory/jsonl.go:73-97 | a crash in one session leaves every other session as it was |
| `CrashLaws.UnsoundSkipSwallowsAppends` | pkg/memory/jsonl.go:152-155 | what that invariant prevents: a skip past the end hides the next append |
| `TornAppends.RunReads` | pkg/memory/jsonl.go:131-176 | byte by byte: after any appends, each cut after any number of its bytes, the lines a reader finds, told from the appends alone |
| `TornAppends.WholeAppendsAreLines` | pkg/memory/jsonl.go:226-246 | without a torn append the file is the line log of the other results |
| `TornAppends.AppendReadsIffClean` | pkg/memory/jsonl.go:233-246 | an append that reports success is read back, after everything that was read before, if and only if the file ended where a line begins; otherwise it spoils the line it is glued to |
| `TornAppends.AcknowledgedAreReadIff` | pkg/memory/jsonl.go:131-176 | over any run: all appends that reported success are read back, in order, if and only if none of them began in mid-line |
| `TornAppends.TornSwallowsNext` | pkg/memory/jsonl.go:157-166 | skipping the corrupt line of a torn append also skips the append that succeeded after it |
| `SessionManager.SessionManager.AddFullMessage` | pkg/session/manager.go:71-87 | appends to the session, creating it if needed; every other session is untouched |
| `SessionManager.SessionManager.GetHistory` | pkg/session/manager.go:89-101 | the session's messages, or none |
| `SessionManager.SessionManager.GetSummary` | pkg/session/manager.go:103-112 | the session's summary, or none |
| `SessionManager.SessionManager.SetSummary` | pkg/session/manager.go:114-123 | sets the summary of an existing session only |
| `SessionManager.SessionManager.TruncateHistory` | pkg/session/manager.go:125-146 | keeps the last messages of an existing session |
| `SessionManager.SessionManager.SetHistory` | pkg/session/manager.go:277-290 | replaces the messages of an existing session only |
| `Refinement.StepRefines` | pkg/memory/jsonl.go:218-439 | one operation on the line log and on the in-memory store, from related states, gives related states |
| `Refinement.RunRefines` | pkg/memory/jsonl.go:218-439 | so does any crash-free run, whatever skips and compactions happen underneath |
| `Refinement.StoresAgree` | pkg/session/jsonl_backend.go:29-77 | from empty stores both return the same histories and summaries for every key |
| `Refinement.AgreeIffHarmless` | pkg/session/manager.go:114-123 | an operation keeps the two stores in agreement if and only if its session exists or it sets nothing |
| `Refinement.CollidingKeysShareASession` | pkg/memory/jsonl.go:92-97 | the injectivity premise is needed: keys that sanitize alike share their history on disk |
| `Refinement.KeysCollideIff` | pkg/memory/jsonl.go:84-97 | keys share a file if and only if they differ only in colons, slashes, backslashes and underscores |
| `Migration.MigrateFromJSON` | pkg/memory/migration.go:31-114 | performs the writes of a migration in order, up to the first one that fails; counts exactly the entries whose history and summary were written, and reports success if and only if those are all eligible ones |
| `Migration.ImportEntry` | pkg/memory/migration.go:64-108 | history, summary if there is one, rename; cut where the device fails, and a failure only if history or summary could not be written |
| `Migration.EntryResumes` | pkg/memory/migration.go:83-105 | an entry cut after any of its writes and taken up again ends where it would have |
| `Migration.ResumeFrom` | pkg/memory/migration.go:43-111 | a crash after any write of the run, and a rerun, end as one uninterrupted run |
| `Migration.CrashesDoNotMatter` | pkg/memory/migration.go:43-111 | and so do any number of crashes and reruns |
| `Migration.SecondRunDoesNothing` | pkg/memory/migration.go:47-60 | running again after success changes nothing |
| `Migration.ImportReadsBack` | pkg/memory/migration.go:76-102 | an imported session reads back as its snapshot, if no later snapshot has the same key |
| `Migration.EligibleIff` | pkg/memory/migration.go:43-62 | which entries are imported: readable snapshots whose name ends in .json, metadata records excepted; renamed ones have another ending |
| `Migration.KeyIs` | pkg/memory/migration.go:76-81 | under the key the snapshot names, or else its file name without .json |
| `Cooldown.StandardSteps` | pkg/providers/cooldown.go:183-189 | 1, 5, 25 minutes, then one hour, for every error count |
| `Cooldown.BillingSteps` | pkg/providers/cooldown.go:198-207 | 5, 10, 20 hours, then one day, for every billing count |
| `Cooldown.CooldownEntry.Record` | pkg/providers/cooldown.go:46-65 | the whole new entry after a failure: reset, counts, last failure, and the end that applies |
| `Cooldown.CooldownTracker.MarkFailure` | pkg/providers/cooldown.go:42-66 | changes the entry of one provider, created if needed, and no other |
| `Cooldown.CooldownTracker.MarkSuccess` | pkg/providers/cooldown.go:69-83 | resets an existing entry's counts and both ends |
| `Cooldown.CooldownTracker.IsAvailable` | pkg/providers/cooldown.go:86-108 | available when unknown or when both ends have passed |
| `Cooldown.CooldownTracker.CooldownRemaining` | pkg/providers/cooldown.go:112-139 | the time to the later of the two ends |
| `Cooldown.CooldownTracker.ErrorCount` | pkg/providers/cooldown.go:142-151 | the recorded count, 0 when unknown |
| `Cooldown.CooldownTracker.FailureCount` | pkg/providers/cooldown.go:154-163 | the recorded count of one reason, 0 when unknown |
| `Cooldown.CooldownTracker.GetOrCreate` | pkg/providers/cooldown.go:165-174 | an existing entry is returned, a new one is fresh, others stay |
| `CooldownLaws.EveryReachableStateIsSafe` | pkg/providers/cooldown.go:42-83 | over every run with a monotone clock: the error count is the sum of the failure counts, the ends are within 1 hour and 24 hours of the last failure, and one more failure moves neither earlier |
| `CooldownLaws.FailureNeverShortens` | pkg/providers/cooldown.go:49-65 | a further failure never moves an end earlier, across the window reset too |
| `CooldownLaws.FailKeepsInv` | pkg/providers/cooldown.go:49-65 | the counts and bounds are kept by every failure, whatever its reason |
| `CooldownLaws.EndsCapped` | pkg/providers/cooldown.go:183-207 | the absolute caps follow from the step functions |
| `CooldownLaws.RemainingZeroIffAvailable` | pkg/providers/cooldown.go:86-139 | the remaining time is 0 if and only if the provider is available |
| `CooldownLaws.RemainingIsExact` | pkg/providers/cooldown.go:86-139 | left alone, the provider becomes available when that time has passed and not before |
| `CooldownLaws.SafeWindowIsExact` | pkg/providers/cooldown.go:49-53 | failures never shorten a cooldown if and only if the failure window is at least 19 hours less one nanosecond |
| `CooldownLaws.ConfiguredWindowIsSafe` | pkg/providers/cooldown.go:9-11 | the configured window of 24 hours is safe |
| `CooldownLaws.FailureIsExact` | pkg/providers/cooldown.go:42-66 | the whole entry after any run that ends in a failure, in numbers: counts are those of the failures since the last success or long pause; a billing failure disables for 5, 10, 20, then 24 hours by how many of them were billing failures, any other cools down for 1, 5, 25, then 60 minutes by how many there were; the other end stays |
| `CooldownLaws.SuccessIsExact` | pkg/providers/cooldown.go:69-83 | and after any run that ends in a success: a clean record, except for the time of the last failure |
| `Fallback.FallbackChain.Execute` | pkg/providers/fallback.go:101-207 | the loop ends as `Chain` says: result, tracker and the candidates run |
| `Fallback.RunsInOrderWhileAvailable` | pkg/providers/fallback.go:114-139 | candidates run in order, each at most once, only while available, and none after the one that ends the chain; those passed over were unavailable |
| `Fallback.SuccessIsTheFirst` | pkg/providers/fallback.go:142-149 | a success is the first: every earlier candidate has exactly one attempt, in order, skipped or retriably failed |
| `Fallback.ExhaustionRecordsEveryone` | pkg/providers/fallback.go:189-206 | exhaustion happens exactly when every candidate lets the chain go on, with one attempt for each |
| `Fallback.ResultIs` | pkg/providers/fallback.go:114-206 | the result, from the first candidate that is not passed over: success exactly when it ran and answered, with its response; cancelled exactly when the context was, before it or after its error; unclassified and non-retriable exactly by how its error is classified; exhausted exactly when there is no such candidate |
| `Fallback.TrackerOnTheWay` | pkg/providers/fallback.go:120-187 | a candidate that ran and failed has that failure on record, at its own time; one that was skipped changes nothing |
| `Fallback.TrackerInTheEnd` | pkg/providers/fallback.go:142-149 | after a success the provider's record, if it has one, is clean and it is available; no other ending changes anything |
| `Fallback.OnlyRunProvidersChange` | pkg/providers/fallback.go:114-207 | cooldown state changes only for providers that were run |
| `Fallback.FailCools` | pkg/providers/cooldown.go:42-66 | any failure keeps its provider out for at least a minute |
| `Fallback.FailedProviderIsSkipped` | pkg/providers/fallback.go:120-135 | a provider that failed in this chain is not run again under another model within a minute |
| `Fallback.ResolveCandidates` | pkg/providers/fallback.go:49-89 | the first candidate of each model key, in order, and no key twice |
| `Fallback.EveryKeyIsCovered` | pkg/providers/fallback.go:65-78 | every usable reference is represented by its key, and nothing else is there |
| `Fallback.FirstsInOrder` | pkg/providers/fallback.go:57-87 | each candidate comes from the first reference with its key, and they come in the order of these |
| `Cron.CronService.Start` | pkg/cron/service.go:103-125 | loads, recomputes and saves once; not running when the file cannot be read or written |
| `Cron.CronService.CollectDue` | pkg/cron/service.go:156-198 | reloads the file, with an empty list when it cannot be read; collects the due ids in order, clears and saves exactly those |
| `Cron.CronService.Lookup` | pkg/cron/service.go:209-218 | the first job with the id, if it is still there |
| `Cron.CronService.FinishJob` | pkg/cron/service.go:235-310 | records the run and deletes, disables or reschedules the job; nothing when it is gone |
| `Cron.CronService.RecomputeNextRuns` | pkg/cron/service.go:349-357 | the next run of every enabled job, others untouched |
| `Cron.CronService.AddJob` | pkg/cron/service.go:410-451 | appends an enabled job with its next run; one-shot jobs are to be deleted after they ran |
| `Cron.CronService.RemoveJobUnsafe` | pkg/cron/service.go:474-492 | removes every job with the id and saves only if there was one |
| `Cron.CronService.EnableJob` | pkg/cron/service.go:494-518 | sets the flag and recomputes or clears the next run of the first job with the id |
| `CronRuns.StepKeepsWellFormed` | pkg/cron/service.go:156-518 | over all interleavings: ids stay unique in memory and on disk, no job changes its schedule, the queue has no id twice, starts lie in the past |
| `CronRuns.DueFacts` | pkg/cron/service.go:171-176 | exactly the enabled jobs whose time has come are collected, each once |
| `CronById.AfterFinishing` | pkg/cron/service.go:235-304 | by id: a finished one-shot job is gone, or disabled if it is to be kept; any other has its next run from now on; start and status are on record; no other job changes |
| `CronById.AfterEnabling` | pkg/cron/service.go:494-518 | by id: enabling gives the job its next run from now on, disabling takes it away; no other job changes |
| `CronById.AfterRemoving` | pkg/cron/service.go:474-492 | by id: the job is gone, every other is as it was |
| `CronById.AfterAdding` | pkg/cron/service.go:410-451 | by id: the new job is enabled, has its next run and has not run yet; only one-shot jobs are deleted afterwards |
| `CronById.AfterCollecting` | pkg/cron/service.go:171-190 | by id: exactly the enabled jobs whose time has come lose their next run |
| `CronLiveness.NextRunIsWhenItComes` | pkg/cron/service.go:313-347 | a next run is computed exactly when the schedule still comes round, and is the time it does: an at-job's time ahead, an interval from now, the next tick of the expression |
| `CronLiveness.AddedIsCollected` | pkg/cron/service.go:410-451 | a job added while the loop is idle is collected by a later tick if and only if its time has come |
| `CronLiveness.CollectedStarts` | pkg/cron/service.go:200-233 | a collected job that is still there has its handler started when its turn comes |
| `CronLiveness.RunForgetsNone` | pkg/cron/service.go:156-518 | over every run in which loads and saves go through, crashes and restarts included: every enabled job that is not being dealt with, in memory and in the file, has the next run its schedule gave it at some earlier time |
| `CronLiveness.NothingIsForgotten` | pkg/cron/service.go:156-357 | so a tick of the idle loop collects every enabled interval job whose interval has gone by, at-job whose time has come, and cron job whose expression has ticked |
| `CronOneShot.OneShotRunsAtMostOnce` | pkg/cron/service.go:156-311 | a one-shot job's handler starts at most once and not before its time, over every interleaving of ticks, handlers, enabling, removal, failed loads, crashes and restarts in which ticks save, or in which finishing and removing save |
| `CronOneShot.RunKeepsFine` | pkg/cron/service.go:156-518 | the invariants behind it, one for each of the two |
| `CronInterval.IntervalIsKept` | pkg/cron/service.go:156-357 | successive starts of an interval job are at least the interval apart, over every interleaving in which finishing and removing save and no sum overflows |
| `CronInterval.NextRunAheadIffNoWrap` | pkg/cron/service.go:321-327 | the next run lies the interval ahead if and only if the 64-bit sum does not wrap |
| `CronPolicy.OnceExactly` | pkg/cron/service.go:178-194 | which saves the first promise rests on: it holds in every run if and only if saves of ticks always go through, or those of finishing and removing do; the saves of starting, adding and enabling do not matter |
| `CronPolicy.IntervalsExactly` | pkg/cron/service.go:281-304 | and the second, among runs without overflow: if and only if saves of finishing and removing always go through; those of ticks do not matter |
| `CronPolicy.StartsTwice` | pkg/cron/service.go:178-194 | the run behind the first: a lost collection and a lost ending, and the next tick starts the job again |
| `CronPolicy.StartsEarly` | pkg/cron/service.go:281-304 | the run behind the second: a job enabled while it waits, started late, and an ending that is lost; the next start comes one millisecond after this one |
| `CronPolicy.RestartLoadsLastSave` | pkg/cron/service.go:383-408 | after a crash the service has the list as it was last saved, whatever happened since that saved nothing |
| `Trigrams.BuildTrigrams` | pkg/skills/search_cache.go:175-196 | strictly increasing, with exactly the packed 3-byte windows of the text; none for a text of fewer than 3 bytes |
| `Trigrams.Compact` | pkg/skills/search_cache.go:187-195 | sliding values down in the same array leaves the distinct values of the sorted run, although the loop reads what it may have overwritten |
| `Trigrams.DistinctIncreases` | pkg/skills/search_cache.go:186-193 | the distinct values of a sorted run increase strictly |
| `Trigrams.DistinctKeepsMembers` | pkg/skills/search_cache.go:186-193 | and are the same values |
| `Trigrams.IncreasingIsUnique` | pkg/skills/search_cache.go:175-196 | so a fingerprint is determined by its set of trigrams |
| `Trigrams.SamePackedIffSameWindows` | pkg/skills/search_cache.go:180-183 | two texts have the same packed trigrams if and only if they have the same 3-byte windows |
| `Trigrams.ShiftsAreSums` | pkg/skills/search_cache.go:182 | the shifts and ors of the packing are a sum without overlap or overflow |
| `Trigrams.JaccardSimilarity` | pkg/skills/search_cache.go:199-220 | the two-pointer merge computes the size of the intersection over the size of the union, and 1 for two empty inputs |
| `Trigrams.JaccardIsSymmetric` | pkg/skills/search_cache.go:198-220 | the similarity does not depend on the order of its arguments |
| `Trigrams.JaccardRange` | pkg/skills/search_cache.go:198-220 | it lies between 0 and 1, is 1 exactly for equal sets and 0 exactly for disjoint sets that are not both empty |
| `SearchCache.SearchCache.constructor` | pkg/skills/search_cache.go:34-47 | defaults of 50 entries and 5 minutes for values that are not positive |
| `SearchCache.SearchCache.Get` | pkg/skills/search_cache.go:51-90 | a live entry of the query itself is the hit; else a live entry of maximal similarity, at least 0.7; a miss means that no entry still live is that similar; only the order changes |
| `SearchCache.SearchCache.BestMatch` | pkg/skills/search_cache.go:70-82 | the scan finds the most similar live entry in whatever order the map is visited and however the clock moves |
| `SearchCache.SearchCache.Put` | pkg/skills/search_cache.go:93-133 | sweeps expired entries, makes room only for a new key, stores the entry and moves its key to the end |
| `SearchCache.SearchCache.MakeRoom` | pkg/skills/search_cache.go:118-123 | the eviction loop removes at most one entry, the first of the order |
| `SearchCache.SearchCache.EvictExpired` | pkg/skills/search_cache.go:144-156 | exactly the entries that have not expired stay, in their order |
| `SearchCache.SearchCache.MoveToEnd` | pkg/skills/search_cache.go:158-166 | the key leaves its place and becomes the last |
| `SearchCache.StoredAgrees` | pkg/skills/search_cache.go:105-132 | storing keeps the agreement: order and map have the same keys, each once, in order of last use, at most `maxEntries` |
| `SearchCache.SweptAgrees` | pkg/skills/search_cache.go:144-156 | sweeping keeps it |
| `SearchCache.UsedAgrees` | pkg/skills/search_cache.go:158-166 | a hit keeps it |
| `LruOrder.MovedToEndKeepsOrder` | pkg/skills/search_cache.go:158-166 | moving a key to the end is what using it does to an order by last use |
| `LruOrder.UsedSinceFirst` | pkg/skills/search_cache.go:118-123 | every other key was used after the one that is evicted |
| `CacheRuns.HeldByRecency` | pkg/skills/search_cache.go:51-133 | after any run from an empty cache: an unexpired query is held when fewer than `maxEntries` other queries were used since its own last use, and only when fewer unexpired ones were |
| `CacheRuns.RunKeepsSound` | pkg/skills/search_cache.go:51-133 | the invariant behind it over any run of hits and stores |
| `CacheRuns.EvictedAfterMany` | pkg/skills/search_cache.go:118-123 | an entry evicted for room gives way to at least `maxEntries` more recent queries |
| `CacheRuns.ShortQueriesAlias` | pkg/skills/search_cache.go:199-202 | a query of fewer than 3 bytes reaches the threshold with exactly the other such queries |
| `CacheRuns.FullSimilarityIffSameWindows` | pkg/skills/search_cache.go:198-220 | full similarity is having the same windows, whatever their order and number |
| `CacheRuns.SimilarIffSevenInTen` | pkg/skills/search_cache.go:70-87 | a query is similar enough for a hit if and only if at least seven in ten of the 3-byte windows of either query occur in both |
| `CacheRuns.RunServesLastPut` | pkg/skills/search_cache.go:93-133 | after any run, what is held for a query is the entry last put under it |
| `PromptCache.ContextBuilder.BuildSystemPromptWithCache` | pkg/agent/context.go:185-223 | on a hit every tracked file present at its check was read for the cached prompt with the content it has then, and one that was read and is gone was absent at some moment while the baseline was taken; files may be written between any two system calls, and other callers may rebuild or invalidate between the two locks; a cached prompt is only rebuilt if a tracked path was touched since its baseline was begun |
| `PromptCache.ContextBuilder.InvalidateCache` | pkg/agent/context.go:228-238 | clears the cached prompt and its baseline |
| `PromptCache.ContextBuilder.BuildCacheBaseline` | pkg/agent/context.go:278-323 | every tracked path is recorded as it was at some moment of the walk, and the maximal time lies before any later write |
| `PromptCache.ContextBuilder.SourceFilesChanged` | pkg/agent/context.go:332-357 | `changed` means that a tracked path differed when looked at; `unchanged` that each looked the same when looked at |
| `PromptCache.ContextBuilder.FileChangedSince` | pkg/agent/context.go:367-385 | changed if and only if existence differs or the time lies after the cached maximum; always when there is no baseline |
| `PromptCache.ContextBuilder.SkillFilesChangedSince` | pkg/agent/context.go:396-451 | a recorded file that is gone or has another time, or a file that was not recorded |
| `PromptCache.SameSourceIsCurrent` | pkg/agent/context.go:359-385 | one maximal time for all paths is enough: a source file that passes the check and is there was not touched since the baseline was complete |
| `PromptCache.SameSkillIsCurrent` | pkg/agent/context.go:402-413 | a skill file with its recorded time was not touched since it was recorded |
| `PromptCache.HitEqualsRebuild` | pkg/agent/context.go:185-223 | if nothing changes during the check, the cached prompt is made of exactly what a rebuild would read if and only if no file flickered: absent when the baseline was taken, read, and gone |
| `PromptCache.FlickerIsMissed` | pkg/agent/context.go:359-366 | flickering can happen: a file present only while the prompt is built is not noticed |
| `DiskHistory.UntouchedSince` | pkg/agent/context.go:204-209 | a file whose time is older than a moment was there, unchanged, all the time since |
| `MediaStore.FileMediaStore.Store` | pkg/media/store.go:91-109 | an unknown file changes nothing; else all three maps gain the ref, even if the file goes between the check and the lock |
| `MediaStore.FileMediaStore.ReleaseAll` | pkg/media/store.go:138-170 | drops exactly the refs of one scope and removes their files as far as they can be removed |
| `MediaStore.FileMediaStore.CleanExpired` | pkg/media/store.go:175-220 | drops exactly the refs stored before the cutoff, returns their number, and does nothing without a positive age |
| `MediaStore.DroppedAgrees` | pkg/media/store.go:149-156 | dropping any set of refs keeps the three maps in agreement and leaves no empty scope |
| `MediaStore.AddedAgrees` | pkg/media/store.go:101-106 | so does storing a fresh ref |
| `MediaStore.ReleaseTakesOneScope` | pkg/media/store.go:138-157 | a ref survives a release if and only if it belongs to another scope, unchanged |
| `MediaStore.FilesSurviveIffUnshared` | pkg/media/store.go:159-167 | every remaining ref keeps its file if and only if no dropped ref shares its path |
| `MediaRuns.RunKeepsAgreement` | pkg/media/store.go:91-220 | the maps agree after any run in which checks, insertions, releases, clean-ups and file removals interleave, paths stored twice included |
| `MediaRuns.RunKeepsFiles` | pkg/media/store.go:91-220 | and when no path in use is stored again, every ref has its file |
| `MediaRuns.ResolvesUntilReleased` | pkg/media/store.go:112-220 | over any run a stored ref resolves to its entry if and only if its scope was not released and no clean-up had a cutoff after its time |
| `MediaRuns.StoredResolves` | pkg/media/store.go:91-133 | the same from the moment a ref is stored, with the entry and the scope it was stored with |
| `MediaRuns.OthersResolveAsBefore` | pkg/media/store.go:101-106 | storing a ref changes nothing for any other |

## Left out

- SplitMessage.SplitMessage: requires that the splitter comes to an end on the text, because the code loops for ever on others.
- Termination.EndsIffBlocksFit: exact for trimmed texts whose fences start lines and limits of 10 runes or more; for texts that begin with a newline, end in white space or have fences in mid-line, and for smaller limits with fences, only the sufficient conditions of `FittingEnds` and `FittingHeadersEnd` are given.
- FenceBalance.ChunksAreBalanced: does not cover fences in mid-line or runs of four and more backticks, which a hard cut can tear, nor texts with fences at limits below 10 runes.
- SplitterLaws.NothingLostOrDoubled: conserves everything but white space; which blanks are trimmed is not stated. It covers the texts that `Orderly` shows to end, by their headers or their blocks.
- AgentLoop.AgentSession.RunAgentLoop: after an emergency compression requests need not mirror the store, because compression may cut a tool round in two; what they are is told request by request, and the compressed retry itself mirrors the store (`TurnLog.RetryMirrors`).
- AgentLoop.AgentSession.ResolveMedia: reading, encoding and size limits of attachments are a parameter.
- SanitizerLaws.SanitizedIsReady: does not say that every tool result belongs to a call of its block; the filter keeps extra results.
- CrashLaws.AppendIsAllOrNothing: at the granularity of lines; what an append torn within a line does is in `TornAppends`, for appends alone and not mixed with truncation, replacement or import.
- SessionLog.ReadMessages: the scanner's limit of 10 MB per line, and read or decoding errors of the metadata, are not modelled.
- SessionLog.CountLines: the scanner's error on a line over 10 MB is not modelled.
- SessionLog.JSONLStore.AddMsg: a failed append leaves the log untouched here, see `TornAppends` for one that leaves part of a line; creation and update times of the metadata record are not modelled.
- SessionManager.SessionManager.AddFullMessage: creation and update times, and saving to JSON files, are not modelled.
- Migration.MigrateFromJSON: the device fails for good, so a rename that fails alone, after which the code logs it and goes on to import the next entry, occurs only when nothing after it can be written either; a rename onto an existing backup is not modelled.
- CronOneShot.OneShotRunsAtMostOnce: one run loop, and no `UpdateJob`, which can put an old next run back.
- Cron.CronService.CollectDue: a store file that is read but decoded only in part is not modelled.
- Cron.CronService.FinishJob: payload, error text, update times and execution history are not modelled.
- Fallback.FallbackChain.Execute: durations and error texts of attempts are not modelled; `ClassifyError` is a parameter.
- SearchCache.SearchCache.Get: similarities are real numbers; the code's 64-bit quotients order and compare alike for all practical sizes. Results are values, so the copying of result slices is not visible.
- Trigrams.BuildTrigrams: the library's sort is a sort of this project, and packing is arithmetic on integers (`ShiftsAreSums`).
- PromptCache.ContextBuilder.BuildSystemPromptWithCache: covers tracked files only; daily notes are read into the prompt but not tracked. A directory walk visits each possible path once, and the layout of the prompt is a parameter.
- PromptCache.ContextBuilder.SkillFilesChangedSince: unreadable directories and other errors of the walk, which the code takes for a change, are not modelled.
- Cooldown.CooldownTracker.IsAvailable: durations are unbounded integers.
- Background summarization (`maybeSummarize`): its text is the provider's, and its late truncation can drop messages added meanwhile.
- `gronx` cron expressions, `ExecuteImage`, model routing, provider options and tool discovery.
- Stopping and restarting the cron service in one process while a batch is running.
- Channel managers, typing and reaction clean-up, MCP sessions, the web server, configuration and logging.
