# PrismTrace verification model

PrismTrace turns append-only logs and live probe traffic into ordered,
deduplicated session views. This project models its stateful and algorithmic
parts in Dafny and proves what they promise, for every input, every run and
every interleaving. `dafny verify dfyconfig.toml` checks all of it.

- `TranscriptTail`, `TranscriptDiscovery`, `ClaudeSession`, `Passes`,
  `DroppedTranscripts`, `ClaudeObserver`:
  following growing transcript files. The file is bytes that the environment
  may append to, truncate or rewrite between polls; the incremental reader is
  proved to be one parse of what it was shown.
- `ControlRegistry`, `DetachRuns`: the lock-protected map of inspector workers
  as a transition system of inject, detach and worker steps, and what a run of
  it did for each of its calls.
- `Sessions`, `ArtifactJoin`: joining artifacts into exchanges, and exchanges
  into sessions at gaps of more than five minutes.
- `ProjectionIndex`, `JsonLines`, `IndexFiles`: the index under replacement of
  one source at a time, and its files.
- `Calendar`, `Timestamps`, `RolloutReader`: day numbers, timestamps, and the
  sliding window over a rollout file.
- `NameSets`, `VisibilityDiffs`, `Neighbours`, `PromptDiffs`,
  `CapabilityLists`: snapshots, diffs and their replay.
- `CodexCorrelation`, `CodexObserver`: replies matched to requests.
- `ProbeListener`, `ProbeConsumer`: the heartbeat listener and its consumer.
- `Wrappers`, `Naturals`, `Sequences`, `StableSort`, `OrderedMap`, `Ranks`, `Bytes`, `Lines`, `StringOrder`, `Decimal`:
  the vocabulary: stable sorting, `BTreeMap`, line splitting, string order and
  decimal numbers, with the laws the rest needs.

A function is the meaning of each operation; a loop or an object of the
original is a method or a class proved equal to it, and the lemmas say what
that meaning promises. JSON and UTF-8 decoding is a total function on a line
given as a parameter; clocks, channels and files are parameters too.

Where the code does less than one would expect of it, one lemma says exactly
when, and another shows that it happens:

- A transcript rewritten without becoming shorter is not noticed
  (`TranscriptTail.SynchronizedExactlyWhen`, `TranscriptTail.SameLengthRewriteIsMissed`).
- The removal that ends a granted detach can take away a control injected for
  the same pid in the meantime (`ControlRegistry.EntryStandsExactlyWhen`,
  `ControlRegistry.DetachCanRemoveSuccessor`), and a worker that ends before it
  is inserted leaves a dead entry (`ControlRegistry.DeadEntryArisesExactlyWhen`,
  `ControlRegistry.DeadEntryIsReachable`).
- Timestamps of one second whose fractions continue each other, or part in
  digits that are not read, and some around a leap second, are not ordered as
  their strings (`Timestamps.StringOrderAgreesExactlyWhen`,
  `Timestamps.HalfSecondSortsFirst`, `Timestamps.UnreadDigitsTie`,
  `Timestamps.LeapSecondTies`).
- An event of a rollout file whose thread id changes later does not name the
  session it is listed in (`RolloutReader.EventNamesItsSessionExactlyWhen`,
  `RolloutReader.LaterThreadTakesTheSession`).
- An index entry that names another source than the projection it came with
  outlives that projection (`ProjectionIndex.ReplacedExactlyWhenKeyed`,
  `ProjectionIndex.StrayEntryStays`).
- Prompt diffs skip a step of a session when a prompt of another session falls
  between (`PromptDiffs.CompleteExactlyWhen`,
  `PromptDiffs.InterruptedSessionSkipsAStep`).
- When a capability request cannot be sent, the replies already taken are
  reported nowhere (`CodexCorrelation.CollectAnswersInTurn`,
  `CodexCorrelation.BrokenPipeDropsAReply`).

## Model

| member | source | states |
|---|---|---|
| TranscriptTail.ParseTranscriptEvents | crates/prismtrace-host/src/claude_observer.rs:630-657 | the loop over the buffer gives the events of its complete lines and stops right behind the last newline |
| TranscriptTail.EventsInAppend | crates/prismtrace-host/src/claude_observer.rs:630-657 | parsing in two chunks, carrying the unterminated end over, gives the events of one parse |
| TranscriptTail.TrackedTranscript.ReadAppendedEvent | crates/prismtrace-host/src/claude_observer.rs:348-381 | one poll of the object is one step of the tailing model, in its fields and its result |
| TranscriptTail.TrackedTranscript.Scan | crates/prismtrace-host/src/claude_observer.rs:270-287 | scanning a file gives the events of its complete lines and leaves offset and partial line at its end |
| TranscriptTail.PollKeepsStep | crates/prismtrace-host/src/claude_observer.rs:348-381 | whatever the file does between polls, a poll keeps offset, partial line and events delivered in step with the bytes shown, and hands out the next event owed |
| TranscriptTail.EmitsExactlyWhen | crates/prismtrace-host/src/claude_observer.rs:348-381 | a poll gives the event waiting, or else an event if and only if the file, grown or started over, has a complete record not given before, and fails exactly when the file cannot be opened or read |
| TranscriptTail.RunKeepsStep | crates/prismtrace-host/src/claude_observer.rs:348-381 | over any run of polls from a scan nothing is lost, repeated or reordered, in every incarnation of the file |
| TranscriptTail.FollowIsOneParse | crates/prismtrace-host/src/claude_observer.rs:282-286 | on an append-only file the events of the scan, those followed and those pending are one parse of the bytes read, and the partial line is their newline-free tail |
| TranscriptTail.TruncationStartsOver | crates/prismtrace-host/src/claude_observer.rs:353-379 | from the poll that sees the file shorter, over any run of polls in which it then grows, the events handed out and pending are those handed out before and then one parse of the new contents from byte 0 |
| TranscriptTail.TruncationIsNoticed | crates/prismtrace-host/src/claude_observer.rs:353-379 | the poll that sees the file shorter has the result and the state of a poll of a transcript just discovered |
| TranscriptTail.SynchronizedExactlyWhen | crates/prismtrace-host/src/claude_observer.rs:353-364 | a poll ends with the present contents if and only if the file had become shorter or still begins with what was read |
| TranscriptTail.SameLengthRewriteIsMissed | crates/prismtrace-host/src/claude_observer.rs:353-364 | for every parser, a file of one line that is replaced by a record of the same length is never reported |
| TranscriptDiscovery.CollectJsonlFiles | crates/prismtrace-host/src/claude_observer.rs:419-458 | pushing, sorting and truncating at every file keeps exactly the first `max_files` of the stable newest-first sort of all files met so far, through the recursion |
| TranscriptDiscovery.DiscoverTranscriptFiles | crates/prismtrace-host/src/claude_observer.rs:390-417 | discovery returns the newest files of the whole tree, or the error for a root that cannot be searched |
| TranscriptDiscovery.VisitedExactlyWhen | crates/prismtrace-host/src/claude_observer.rs:419-458 | the files met are exactly those that a route through readable directories leads to, with extension jsonl and a modification time |
| TranscriptDiscovery.EachIsMetOnce | crates/prismtrace-host/src/claude_observer.rs:419-458 | in a tree, where no two routes lead to one path, no file is met twice |
| TranscriptDiscovery.NewestComesFirst | crates/prismtrace-host/src/claude_observer.rs:449-453 | what is kept was met, is as much as fits, and comes in descending modification time |
| TranscriptDiscovery.NothingNewerIsLeftOut | crates/prismtrace-host/src/claude_observer.rs:419-458 | no file left out is newer than one that is kept |
| ClaudeSession.NextKeepsSound | crates/prismtrace-host/src/claude_observer.rs:302-345 | an event returned is the next one owed by its transcript, the others hand out nothing, and a transcript is dropped only with nothing pending |
| Passes.NextPollsAll | crates/prismtrace-host/src/claude_observer.rs:302-345 | an open session with nothing waiting gives no event if and only if every transcript, polled once in every pass from the state its earlier polls left, gives none; otherwise the event, or the report, is that of the first poll in pass order that is not quiet, and no transcript behind it was polled again |
| Passes.SilenceMeansNothingNew | crates/prismtrace-host/src/claude_observer.rs:302-345 | when a call gives no event, no transcript had an event waiting and no look at one that only grew showed a new record |
| ClaudeSession.ScanTakesSuffixes | crates/prismtrace-host/src/claude_observer.rs:258-299 | the scan gives a suffix of each readable history, at most `max_events` in all, and cuts a history only once the budget is spent |
| ClaudeSession.FollowLosesNothing | crates/prismtrace-host/src/claude_observer.rs:258-345 | over any run after the scan every tracked transcript has given exactly the events beyond its scan up to those pending, and the session is closed exactly when no transcript is left |
| DroppedTranscripts.DroppingLosesNothing | crates/prismtrace-host/src/claude_observer.rs:302-345 | over any run after the scan every readable transcript is either followed and unreported, or was dropped once, reported once, and had handed out every event of every incarnation it was shown beyond its scan |
| DroppedTranscripts.ScanReportsUnreadable | crates/prismtrace-host/src/claude_observer.rs:258-281 | the scan hands on the status events first, then reports each transcript it cannot read once, and no other |
| ClaudeObserver.ClaudeObserverSession.constructor | crates/prismtrace-host/src/claude_observer.rs:172-217 | a session starts with its discovered transcripts, or closed with a status event |
| ClaudeObserver.ClaudeObserverSession.CollectCapabilityEvents | crates/prismtrace-host/src/claude_observer.rs:258-299 | the object's scan is the model's |
| ClaudeObserver.ClaudeObserverSession.NextEvent | crates/prismtrace-host/src/claude_observer.rs:302-345 | the object's call is the model's, pass by pass |
| ControlRegistry.StepKeepsInv | crates/prismtrace-host/src/runtime.rs:171-232 | every step of inject, detach and worker keeps the registry's invariant on entries, handles, queues and the lock |
| ControlRegistry.RunKeepsInv | crates/prismtrace-host/src/runtime.rs:937-1117 | every reachable state satisfies it |
| ControlRegistry.LiveWorkersAreAccountedFor | crates/prismtrace-host/src/runtime.rs:201-232 | in every interleaving a live worker is in the map, held by a call in progress, or has a disconnected channel; and the channel is disconnected exactly when no entry and no call shares it |
| ControlRegistry.QuietRegistry | crates/prismtrace-host/src/runtime.rs:1062-1117 | with no call in progress a live worker is in the map if and only if it is not disconnected |
| ControlRegistry.ReplacedWorkersAreSeenOff | crates/prismtrace-host/src/runtime.rs:1072-1087 | a replaced worker has finished, or the call that replaced it still stops and joins it |
| ControlRegistry.DoomedWorkerLeaves | crates/prismtrace-host/src/runtime.rs:937-973 | each step of a worker told to stop, or disconnected, uses up one of the steps it has left or takes it out of its loop, and no other thread's step gives it more |
| ControlRegistry.DoomedWorkerRunsOut | crates/prismtrace-host/src/runtime.rs:937-973 | along any run a worker told to stop, or disconnected, takes in its loop at most the steps it had left, and while it is there its next step is never blocked |
| ControlRegistry.NoWaitCycle | crates/prismtrace-host/src/runtime.rs:183-232 | lock waits and join waits never form a cycle |
| ControlRegistry.SomebodyCanGoOn | crates/prismtrace-host/src/runtime.rs:1062-1117 | an unfinished thread can step, or waits, over at most two waits, for one that can: no deadlock |
| ControlRegistry.EntryChangesExactlyWhen | crates/prismtrace-host/src/runtime.rs:183-192 | an entry changes exactly by an insertion for its pid, the removal that ends a granted detach, or its own worker's cleanup; so a stale cleanup leaves a successor alone |
| DetachRuns.RemovalFollowsGrant | crates/prismtrace-host/src/runtime.rs:207-222 | in every run, a detach about to remove an entry began as a detach of that pid, found that control in the map under it, and had its request answered with yes by that control's worker |
| DetachRuns.FailedDetachNeverRemoves | crates/prismtrace-host/src/runtime.rs:1092-1107 | in every run, a detach that found no entry, could not send, gave up waiting or was refused is never again enabled to remove one |
| DetachRuns.DetachGoesOnExactlyWhen | crates/prismtrace-host/src/runtime.rs:1107-1115 | a detach that receives its answer goes on to the removal if and only if some worker came to its request and the target granted it |
| DetachRuns.RequestsAreQueued | crates/prismtrace-host/src/runtime.rs:207-222 | in every run, a detach that waits unanswered has its request in the queue of its worker, as long as that lives |
| DetachRuns.RunKeepsQueues | crates/prismtrace-host/src/runtime.rs:937-973 | in every run, a request in a queue is of a detach that waits on that worker unanswered, or is over, and is there only once |
| DetachRuns.DetachRemovesItsPid | crates/prismtrace-host/src/runtime.rs:1109-1115 | the removal takes away the entry of the pid detached and no other |
| DetachRuns.EntryAppearsExactlyWhen | crates/prismtrace-host/src/runtime.rs:1072-1084 | an entry comes into the map exactly by the insertion of that control for that pid |
| DetachRuns.EntriesComeFromInjections | crates/prismtrace-host/src/runtime.rs:1062-1084 | in every run, an entry was allocated and inserted by one injection of its pid, with the id allocated to it |
| ControlRegistry.GoneForGood | crates/prismtrace-host/src/runtime.rs:176-181 | a control that left the map never comes back: ids are not reused |
| ControlRegistry.EntryStandsExactlyWhen | crates/prismtrace-host/src/runtime.rs:1092-1117 | the control removed at the end of a detach is the one detached if and only if no step disturbed the entry in between |
| ControlRegistry.DetachCanRemoveSuccessor | crates/prismtrace-host/src/runtime.rs:1109-1117 | from any reachable state with the lock free and no entry for the pid, a run leads to a detach about to remove a live control injected since |
| ControlRegistry.DeadEntryArisesExactlyWhen | crates/prismtrace-host/src/runtime.rs:1062-1087 | an entry of a finished worker arises exactly when a control is inserted after its worker's cleanup |
| ControlRegistry.DeadEntryIsReachable | crates/prismtrace-host/src/runtime.rs:1062-1087 | such a state is reachable |
| Sessions.BuildSessionDetails | crates/prismtrace-host/src/console/mod.rs:1147-1230 | the loops over the pid map compute the sessionizer's meaning |
| Sessions.PushSessionsOf | crates/prismtrace-host/src/console/mod.rs:1158-1219 | the loop with its open session appends exactly the sessions of one process |
| Sessions.TogetherExactlyWhen | crates/prismtrace-host/src/console/mod.rs:55 | two exchanges share a session if and only if they share a pid and every exchange of it from the one up to the other is followed by a later one within the window |
| Sessions.SamePlaceExactlyWhen | crates/prismtrace-host/src/console/mod.rs:1168-1192 | in (started, request id) order, two exchanges share a session if and only if every gap between neighbours from one to the other is at most the window |
| Sessions.TimelinesHoldTheExchanges | crates/prismtrace-host/src/console/mod.rs:1147-1230 | the timelines together hold every exchange exactly as often as it was given |
| Sessions.SessionDetailsAreWellFormed | crates/prismtrace-host/src/console/mod.rs:1181-1229 | completion times descend and tied sessions ascend by id; the sessions have distinct ids, lie more than the window apart within a process, and their start, greatest completion and count are those of their sorted, one-process timeline |
| Sessions.SessionIdInjective | crates/prismtrace-host/src/console/mod.rs:1183 | a session id determines pid, start and ordinal |
| Sessions.SessionDetailsIgnoreOrder | crates/prismtrace-host/src/console/mod.rs:1147-1230 | with unique request ids the whole output depends only on the multiset of exchanges |
| ArtifactJoin.BuildResponseIndex | crates/prismtrace-host/src/console/mod.rs:1431-1476 | the two maps built in one pass answer every exchange id as a scan for the latest response does, and any unreadable file is an error |
| ArtifactJoin.BuildVisibilityIndex | crates/prismtrace-host/src/console/mod.rs:1540-1591 | both visibility maps answer every id as a scan for the latest record does |
| ArtifactJoin.LatestIsGreatest | crates/prismtrace-host/src/console/mod.rs:1447-1453 | the scan finds a record whenever one has the key, its time is the greatest, and among equals it was read last |
| ArtifactJoin.LoadExchangeRecords | crates/prismtrace-host/src/console/mod.rs:1081-1145 | loading fails exactly when a response or visibility file cannot be read; otherwise it gives the exchanges of the nested scan over all files, each as often, one for each request with a pid, ascending in start time and request id |
| ArtifactJoin.LoadSessionDetails | crates/prismtrace-host/src/console/mod.rs:1076-1079 | it fails exactly when a response or visibility file cannot be read; otherwise the timelines together hold the exchanges of the nested scan, each exactly as often |
| ArtifactJoin.SessionsShowTheScan | crates/prismtrace-host/src/console/mod.rs:1076-1145 | what the join and the sessionizer together show is every exchange of the nested scan, exactly as often as it was joined |
| ArtifactJoin.LoadRequestRecords | crates/prismtrace-host/src/console/mod.rs:1232-1254 | request files that cannot be read or are no record are skipped |
| ArtifactJoin.RecordsAreThoseRead | crates/prismtrace-host/src/console/mod.rs:1232-1254 | each record is loaded once for every file that holds it |
| ArtifactJoin.OneExchangePerRequest | crates/prismtrace-host/src/console/mod.rs:1084-1087 | there is one exchange for each request with a pid, in the order read |
| ArtifactJoin.JoinedResponseIsLatest | crates/prismtrace-host/src/console/mod.rs:1093-1117 | an exchange has a response exactly when one carries its id, completes no earlier than any of them, and shows the last read among the latest |
| ArtifactJoin.JoinedVisibilityIsLatest | crates/prismtrace-host/src/console/mod.rs:1099-1133 | an exchange shows tool visibility exactly when a record names its request or its exchange, the latest by request id or else by exchange id, and keeps what the request says |
| ArtifactJoin.SessionsIgnoreFileOrder | crates/prismtrace-host/src/console/mod.rs:1076-1145 | the sessions do not depend on the order in which the folders list their files, unless records compete at one instant |
| ProjectionIndex.RunIsRebuild | crates/prismtrace-index/src/lib.rs:147-236 | after any run of replacing and retaining, the index equals, in its order too, one rebuilt from the surviving projections |
| ProjectionIndex.SurvivesExactlyWhen | crates/prismtrace-index/src/lib.rs:191-236 | a projection survives if and only if no later step replaced or dropped its source |
| ProjectionIndex.SurvivesOnce | crates/prismtrace-index/src/lib.rs:191-218 | no source survives with two projections |
| ProjectionIndex.RunInOrder | crates/prismtrace-index/src/lib.rs:147-170 | sessions and capabilities stay sorted over every run |
| ProjectionIndex.RunListsInOrder | crates/prismtrace-index/src/lib.rs:147-170 | after any run the sessions descend in update time, ties ascending by id, and the capabilities ascend in time, then type, name and id |
| ProjectionIndex.RetainAfterReplace | crates/prismtrace-index/src/lib.rs:191-236 | retaining commutes with replacing a source it keeps and undoes replacing one it drops |
| ProjectionIndex.ReplacedExactlyWhenKeyed | crates/prismtrace-index/src/lib.rs:191-218 | a later projection of a source leaves nothing of the earlier one if and only if every entry of the earlier one names its source |
| ProjectionIndex.StrayEntryStays | crates/prismtrace-index/src/lib.rs:191-218 | an entry that names another source outlives the projection it came with |
| ProjectionIndex.LookupsIgnoreSourceOrder | crates/prismtrace-index/src/lib.rs:172-189 | with unique ids every lookup agrees with an index built from the surviving sources in any order |
| ProjectionIndex.EventDetailIsFirst | crates/prismtrace-index/src/lib.rs:176-181 | the event found is the first in the list with the id, and none is found exactly when none has it |
| ProjectionIndex.CapabilitiesOfExactlyWhen | crates/prismtrace-index/src/lib.rs:183-189 | a session's capabilities are those of the index with its session id, each as often as it is there, in the order of the index |
| ProjectionIndex.SummariesAreNewest | crates/prismtrace-index/src/lib.rs:172-174 | no session left out of the summaries was updated after one that is listed |
| IndexFiles.ObservabilityIndex.InsertSession | crates/prismtrace-index/src/lib.rs:147-155 | afterwards the sessions are the old ones and the new one, each exactly as often, in order, the new one behind those it ties with; nothing else changes |
| StableSort.SortIsTheStableOrder | crates/prismtrace-index/src/lib.rs:149-154 | sorting gives the one list that is in order and keeps the elements of every rank as they stood |
| IndexFiles.ObservabilityIndex.ReplaceSourceProjection | crates/prismtrace-index/src/lib.rs:191-218 | the object's replacement is the model's, in all three lists |
| IndexFiles.ObservabilityIndex.RetainSourceProjections | crates/prismtrace-index/src/lib.rs:220-236 | the two nested loops keep, in their order, exactly the entries whose source is named, as often as they were there, in all three lists; this is the retention of the model |
| Sequences.FilterKeepsExactly | crates/prismtrace-index/src/lib.rs:225-236 | retaining gives the one list that holds every element that passes, as often and in the order it stood, and no other |
| IndexFiles.ObservabilityIndex.SaveJsonl | crates/prismtrace-index/src/lib.rs:238-247 | saving writes the three files in turn and stops at the first list that cannot be printed |
| IndexFiles.ObservabilityIndex.LoadJsonl | crates/prismtrace-index/src/lib.rs:249-265 | loading gives a new index with the re-inserted entries, or an error exactly when a line does not parse |
| IndexFiles.LoadAfterSave | crates/prismtrace-index/src/lib.rs:238-296 | for every index a run reaches, loading after saving gives back an equal index, ties in their order |
| JsonLines.ReadBack | crates/prismtrace-index/src/lib.rs:268-296 | reading the lines written gives the items written |
| JsonLines.WriteJsonl | crates/prismtrace-index/src/lib.rs:268-281 | the loop writes one line an item, and fails exactly when an item cannot be printed |
| JsonLines.ReadJsonl | crates/prismtrace-index/src/lib.rs:283-296 | a missing file is empty, blank lines are passed over, and a line that does not parse is an error |
| JsonLines.ReadFailsExactlyWhen | crates/prismtrace-index/src/lib.rs:283-296 | a file is refused exactly when a line that is not blank is no record; otherwise it gives the records of its other lines, in order |
| Calendar.DayNumbersCount | crates/prismtrace-host/src/observability_read_model.rs:936-953 | the day number is 0 at the epoch and rises by exactly 1 from every valid date to its successor |
| Calendar.DayNumbersAscend | crates/prismtrace-host/src/observability_read_model.rs:936-953 | one valid date is earlier than another if and only if its day number is less |
| Calendar.NoneExactlyBeforeEpoch | crates/prismtrace-host/src/observability_read_model.rs:937-952 | a valid date has no result exactly when it lies before 1970-01-01 |
| Calendar.EveryDayHasADate | crates/prismtrace-host/src/observability_read_model.rs:936-953 | every number of days is that of exactly one valid date |
| Timestamps.ParseRfc3339TimestampMs | crates/prismtrace-host/src/observability_read_model.rs:901-934 | the parser with its padding loop and checked arithmetic computes the unchecked meaning: no text makes it fail by overflow |
| Timestamps.CanonicalIsRead | crates/prismtrace-host/src/observability_read_model.rs:901-934 | a canonical UTC timestamp is read as the instant its fields name, and refused exactly before the epoch |
| Timestamps.OrderedAsStrings | crates/prismtrace-host/src/observability_read_model.rs:901-934 | any two canonical timestamps, written with exactly the three digits that are read, are ordered as their strings if and only if no leap second stands in the way |
| Timestamps.StringOrderAgreesExactlyWhen | crates/prismtrace-host/src/observability_read_model.rs:901-934 | for any two canonical timestamps, with any number of fraction digits and leap seconds included, the string order and the order of instants agree if and only if they are not a leap second and the second it is read as with fractions the wrong way round, nor two of one second whose fractions continue each other or part only in digits that are not read |
| Timestamps.HalfSecondSortsFirst | crates/prismtrace-host/src/observability_read_model.rs:912-927 | a timestamp half a second later than one without a fraction comes before it as a string |
| Timestamps.LeapSecondTies | crates/prismtrace-host/src/observability_read_model.rs:928-933 | 23:59:60 is read as the midnight that follows, which is later as a string |
| Timestamps.UnreadDigitsTie | crates/prismtrace-host/src/observability_read_model.rs:913-927 | timestamps that differ behind the third fraction digit are read as one instant, though one string comes first |
| RolloutReader.ReadCodexRolloutSession | crates/prismtrace-host/src/observability_read_model.rs:613-741 | the loop over the lines, with its window, last thread id and times, computes the reader's meaning |
| RolloutReader.ReadsExactlyWhen | crates/prismtrace-host/src/observability_read_model.rs:683-695 | a file gives a session if and only if its last session_meta has an id and names the workspace asked for, if any, and some line holds a message with text, a call or an output |
| RolloutReader.SessionIsOfLastMeta | crates/prismtrace-host/src/observability_read_model.rs:646-655 | the session has the id and the workspace of the last session_meta, and counts the lines that give an event, up to 160 |
| RolloutReader.EventsAreTheirLines | crates/prismtrace-host/src/observability_read_model.rs:656-672 | the normalised events are exactly what the lines produce, in ascending line order |
| RolloutReader.SessionSpansItsEvents | crates/prismtrace-host/src/observability_read_model.rs:19 | a session holds exactly the last 160 events in file order, starts at the file's first time or at its first kept event if that is later, and ends at the file's greatest time, not before it starts |
| RolloutReader.LookupFindsTheRecord | crates/prismtrace-host/src/observability_read_model.rs:823-862 | each kept event's line index leads back to the very value of the line that produced it, with the time, kind and text taken from it, despite blank, malformed and undecodable lines |
| RolloutReader.LookupSurvivesAppend | crates/prismtrace-host/src/observability_read_model.rs:853-862 | it still does after the file was appended to, for every line that ended in a newline |
| RolloutReader.ReadJsonlValueAtLine | crates/prismtrace-host/src/observability_read_model.rs:853-862 | the scan to a line reads that line alone |
| RolloutReader.EventIdsAreDistinct | crates/prismtrace-host/src/observability_read_model.rs:786-787 | event ids are distinct even when the thread id changes along the file |
| RolloutReader.EventNamesItsSessionExactlyWhen | crates/prismtrace-host/src/observability_read_model.rs:646-660 | a kept event names the session that lists it if and only if the thread in force at its line is the last one |
| RolloutReader.LaterThreadTakesTheSession | crates/prismtrace-host/src/observability_read_model.rs:646-660 | for every decoder, a file that opens a thread, gives an event and opens another thread lists the first thread's event under the second |
| VisibilityDiffs.VisibilityDiffsForTypes | crates/prismtrace-analysis/src/lib.rs:560-608 | the three loops over both maps compute the diffs' meaning |
| VisibilityDiffs.SessionDiffsReplay | crates/prismtrace-analysis/src/lib.rs:596-606 | a session's diffs are one fewer than its snapshots, and replaying them from the first gives every later one |
| VisibilityDiffs.SnapshotsAscend | crates/prismtrace-analysis/src/lib.rs:587-594 | the snapshots of a session ascend in observation time, those of one moment in event id |
| VisibilityDiffs.DiffsLeadForward | crates/prismtrace-analysis/src/lib.rs:596-606 | every diff given leads from one snapshot of its session to the next, which is not earlier |
| VisibilityDiffs.DiffsAscendBySession | crates/prismtrace-analysis/src/lib.rs:585-608 | the diffs follow one another by session id |
| VisibilityDiffs.SnapshotsHoldWhatWasSeen | crates/prismtrace-analysis/src/lib.rs:565-583 | there is a snapshot for exactly the moments something was seen, with exactly the names seen then |
| VisibilityDiffs.DiffsIgnoreOrderAndRepetition | crates/prismtrace-analysis/src/lib.rs:560-608 | the result is unchanged by permuting or duplicating the capabilities |
| VisibilityDiffs.DiffSaysWhatChanged | crates/prismtrace-analysis/src/lib.rs:618-652 | a name is added or removed exactly when it is in one snapshot only, and a rename is suggested exactly for one of each |
| NameSets.DifferenceAscends | crates/prismtrace-analysis/src/lib.rs:623-634 | the names added or removed come in ascending order, each once |
| PromptDiffs.CompleteExactlyWhen | crates/prismtrace-analysis/src/lib.rs:169-205 | the diffs lead from each prompt of a session to the next if and only if its prompts stand side by side in time order |
| PromptDiffs.InterruptedSessionSkipsAStep | crates/prismtrace-analysis/src/lib.rs:177-183 | with a prompt of another session between them, two prompts of one session give no diff |
| PromptDiffs.ReplaysWhenSideBySide | crates/prismtrace-analysis/src/lib.rs:177-205 | then replaying them gives the lines of every later prompt |
| PromptDiffs.PromptsInAscend | crates/prismtrace-analysis/src/lib.rs:170-176 | the prompts of a session are those that name it, ascending in observation time, ties in event id |
| PromptDiffs.DiffsLeadOn | crates/prismtrace-analysis/src/lib.rs:183-202 | every diff given leads from one prompt of its session to the next of that session, which is not earlier, and adds or removes exactly the lines only one of them has |
| PromptDiffs.DiffsAreSomeSteps | crates/prismtrace-analysis/src/lib.rs:177-205 | whatever lies between its prompts, the diffs given for a session are some of the steps from each of its prompts to the next, in order |
| CapabilityLists.KeptOnceExactlyWhen | crates/prismtrace-analysis/src/lib.rs:693-707 | of any list every identity is kept, and none twice if and only if the sort brings its copies together |
| CapabilityLists.KeptOnce | crates/prismtrace-analysis/src/lib.rs:693-707 | none is kept twice when an event id stands for one session and time |
| CapabilityLists.OneEventIsKeptOnce | crates/prismtrace-analysis/src/lib.rs:109-154 | a list of one session, one event id and one time, which is what both callers pass, is left in order, with every capability it had and no identity twice |
| CapabilityLists.KeptInOrder | crates/prismtrace-analysis/src/lib.rs:693-700 | what is left of any list ascends in time, then in type, name and event id |
| CapabilityLists.OneEventIgnoresOrderAndRepetition | crates/prismtrace-analysis/src/lib.rs:109-154 | what is left of such a list depends only on which capabilities it has |
| CodexCorrelation.RunKeeps | crates/prismtrace-host/src/codex_observer.rs:513-680 | after any calls every message received is pending or was handed out, once, the queue is in arrival order, and no request is answered twice or under another's name |
| CodexCorrelation.TakeIsEarliest | crates/prismtrace-host/src/codex_observer.rs:531-570 | a response taken is the earliest message with that id not handed out before, whatever timed out earlier |
| CodexCorrelation.TakeFindsExactlyWhen | crates/prismtrace-host/src/codex_observer.rs:531-570 | a response is taken if and only if one with the id is held back, or arrives after nothing but messages; one held back is taken without reading |
| CodexCorrelation.TakeReadsUpTo | crates/prismtrace-host/src/codex_observer.rs:520-570 | with none held back, the channel is read up to the first message with the id or the first outcome that is no message, and no further, and the error is that outcome's |
| CodexCorrelation.TakeConserves | crates/prismtrace-host/src/codex_observer.rs:531-570 | taking a response keeps every other message, in order, found or not |
| CodexCorrelation.NextIsEarliest | crates/prismtrace-host/src/codex_observer.rs:651-658 | the next event is the earliest message not handed out yet; there is none exactly when nothing is held back and nothing arrives, and an error exactly when what arrives is no message |
| CodexCorrelation.LateReplyIsNamed | crates/prismtrace-host/src/codex_observer.rs:672-680 | a late reply is handed out under the request that asked for it, which leaves the table; any other message as the server's own |
| CodexCorrelation.CollectAnswersInTurn | crates/prismtrace-host/src/codex_observer.rs:612-649 | the answers come in the order of the requests, each reply with its own request's id, if and only if all requests can be sent |
| CodexCorrelation.CollectFindsExactlyWhen | crates/prismtrace-host/src/codex_observer.rs:622-646 | each request of a collection gets its reply if and only if that is held back once the requests before it are through, or still arrives after nothing but messages |
| CodexCorrelation.RequestIsAnsweredExactlyWhen | crates/prismtrace-host/src/codex_observer.rs:622-646 | the same of one request; answered it leaves the table, with its reply handed out under its name, and unanswered it stays there |
| CodexCorrelation.SentRequestsAreAccountedFor | crates/prismtrace-host/src/codex_observer.rs:513-680 | over any calls, every request sent is at the end in the table or was answered under its name |
| CodexCorrelation.BrokenPipeDropsAReply | crates/prismtrace-host/src/codex_observer.rs:622-630 | a reply taken before the pipe breaks is handed out and reported nowhere |
| CodexObserver.CodexObserverSession.TakeResponse | crates/prismtrace-host/src/codex_observer.rs:531-570 | the read loop of the object is the model's, in queue, channel and result |
| CodexObserver.CodexObserverSession.SendNextRequest | crates/prismtrace-host/src/codex_observer.rs:513-518 | an id is spent whether or not the request can be sent |
| CodexObserver.CodexObserverSession.CollectCapabilityEvents | crates/prismtrace-host/src/codex_observer.rs:612-649 | one event for each answer of the model, or an error when the pipe breaks |
| CodexObserver.CodexObserverSession.NextEvent | crates/prismtrace-host/src/codex_observer.rs:651-658 | the object's call is the model's, with the event the table calls for |
| CodexObserver.CodexObserverSession.NormalizeValue | crates/prismtrace-host/src/codex_observer.rs:672-680 | a message with an id in the table is that request's reply and leaves the table |
| ProbeListener.IpcListener.NextEvent | crates/prismtrace-host/src/ipc.rs:77-115 | the read loop of the object is the model's, with the heartbeat time |
| ProbeListener.NextAnswersExactlyWhen | crates/prismtrace-host/src/ipc.rs:77-115 | the first read that comes too late or gives something decides: a message in time is received, an end or failure in time disconnects, a clock too late times out, and a line that is no message is passed over |
| ProbeListener.WorkerSendsExactly | crates/prismtrace-host/src/request_capture.rs:242-260 | the worker sends exactly the messages up to the first read that ends it, and behind it only the acknowledgement of a detach |
| ProbeListener.UndisturbedWorkerSendsAll | crates/prismtrace-host/src/request_capture.rs:242-260 | while every clock is in time and the channel neither ends nor fails, every message is sent |
| ProbeListener.WorkerKeepsOrder | crates/prismtrace-host/src/request_capture.rs:242-260 | the worker sends the messages of the lines in order, skipping only what is no message, and nothing after the first terminal event |
| ProbeListener.TimeoutMeansSilence | crates/prismtrace-host/src/ipc.rs:56-115 | a heartbeat timeout is sent only when the clock had passed the last heartbeat read by more than the timeout |
| ProbeConsumer.ConsumeProbeEvents | crates/prismtrace-host/src/request_capture.rs:226-397 | the loop over sequence, hints and deadline computes the consumer's meaning |
| ProbeConsumer.RunIsFaithful | crates/prismtrace-host/src/request_capture.rs:320-396 | at every point the events taken are a prefix of the worker's, none after a terminal one, the hint map is exactly each exchange's last captured provider with no response since, the artifacts are those of the events taken, and the sequence is one more than their number |
| ProbeConsumer.EventIdsAreDistinct | crates/prismtrace-host/src/response_capture.rs:58-63 | no two artifacts of a run, requests or responses, share an event id |
| ProbeConsumer.FallbackExactlyWhen | crates/prismtrace-host/src/request_capture.rs:296-309 | the consumer gives up on its own if and only if timeout and slack have passed since it last took a message |
| ProbeConsumer.TurnTakesExactlyWhen | crates/prismtrace-host/src/request_capture.rs:294-396 | at each turn the next event is taken if and only if the deadline has not passed and one came; the loop ends over a missing worker, a terminal event or an artifact that cannot be written, each exactly then |
| ProbeConsumer.MessagesTakenAreThePrefix | crates/prismtrace-host/src/request_capture.rs:226-397 | fed by the worker, the consumer takes the messages of the probe's lines in order, from the first on |
| ProbeConsumer.UndisturbedMessagesAreTaken | crates/prismtrace-host/src/request_capture.rs:226-397 | while the probe's clock and channel hold, a consumer that emptied the channel took every message of the lines |

## Left out

- File system, sockets, child processes, `ps`, `lsof`, `sqlite3` and HTTP serving: what they give is a parameter of the operation.
- JSON and UTF-8 decoding and printing: a function on a line, given as a parameter; where a round trip needs it, printing and parsing are assumed to undo each other on one line.
- The width of offsets, counters and millisecond sums: numbers are unbounded, except for the checked sums of the timestamp parser, which are modelled with their 64-bit limit.
- Lock poisoning: no step modelled panics while it holds the control map's lock.
- The network side of an injection (waking the inspector, connecting, evaluating): an injection is modelled from the allocation of its control id on, and a failed connection as its worker's loop ending.
- Worker joins of the probe consumer: `cleanup_worker` is reduced to the exit it accompanies.
- Texts made for reading (titles, summaries, labels, header redaction, provider detection): parameters or opaque strings.
- Path equality by components: paths are compared as strings.
- Titles and response counts of rollout sessions.
- Headers, bodies and artifact details the join passes through unchanged.
- Timestamps with an offset other than `Z`, and days such as February 31.
- The observer artifact reader, the opencode observer, the JSON tree name collectors, cursor pagination, the console pages and `bootstrap.js`: little state, or user interface.
- `index/read_store.rs` and `index/write_store.rs` are not part of this model.
- The manifest of indexed sources: a list searched and overwritten in place.
- ProjectionIndex.RunIsRebuild: projections are required to hold only entries that name their own source; `ProjectionIndex.ReplacedExactlyWhenKeyed` shows that others are not replaced.
