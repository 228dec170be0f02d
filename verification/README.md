# Verified models of the queue, protocol, audit and access components

This project models the parts of the repository whose correctness depends on whole runs, on interleavings or on
pairs of functions that must fit together, and proves what they guarantee. `dafny verify dfyconfig.toml` checks it.

* **Leased job queue** (`JobStates`, `QueueModel`, `QueueInvariant`, `QueueEffects`, `QueueRuns`, `InMemoryQueue`). Each
  method of the in-memory queue is a function on queue values; the class with its mutable records is proved equal to
  these functions; what every call does to the jobs, the line and the leases is stated field by field; the invariant,
  fairness, bounded work, fencing and legal histories are proved over all runs of calls.
* **Redis queue adapter** (`RedisSteps`, `RedisRuns`, `RedisKeys`, `RedisDepth`, `RedisOverlap`, `RedisSync`). The
  asynchronous calls are a step system in which every command is atomic and any number of producers and workers
  interleave; keys may expire at any time. Proved over all interleavings: where a job is, what changes it, when a
  submission is a duplicate, how far the waiting list grows, and which overlapping calls do harm. The synchronous calls
  run on a shared store, are shown to be the asynchronous ones without interruption, and are compared with the
  in-memory queue call by call and over runs.
* **RESP2 client** (`RespParser`, `RespEncoding`, `RespCommands`, `RespClient`). The incremental parser, the encodings of
  replies and commands, and the delivery of replies to pending callbacks under arbitrary chunking. Formats follow the
  Redis serialization protocol specification (RESP2).
* **Dispatcher auditor** (`CfgTree`, `CfgReach`, `CfgVerdict`, `CfgRuns`). The tree of `Q < t` tests, the recorded
  intervals, the worklist search, the incoming edges, the verdicts, and a run semantics against which the verdict
  "proven unreachable" is judged.
* **Identity store** (`IdentityStore`, `IdentityOutcome`). Concurrent `getOrCreatePrincipal` calls as tasks that
  interleave at every await: what stays unique, who waits, and how every call is answered in the end.
* **Text codecs and scanners** (`LuaLiteral`, `LuaEscapes`, `NativeScan`, `NativeLexemes`, `StringAudit`). The Lua literal
  printer, reader and lexer scan, and the native one-pass scanner, each against a grammar that writes every text; the
  in-place rotations and the sextet decoder.
* **Time-dependent stores** (`RateLimiting`, `RateSeparation`, `Sessions`). The sliding-window limiter and the session
  store over whole runs.

`Collections` holds the JavaScript `Map` with its insertion order and small sequence facts.

## Results that differ from the documentation or the likely intent

* `docs/job-lifecycle.md` line 48 promises that a key never yields two jobs. The in-memory queue keeps this
  (`ResubmissionIsDuplicate`). In the asynchronous Redis adapter a submission is a duplicate exactly when another one
  under its key was answered as accepted before it looked (`DuplicateIffEarlierAccepted`), so submissions that overlap
  can all be accepted (`ConcurrentSubmissionsBothAccepted`); every interleaving keeps one job per key exactly when no two
  submissions share a key (`OneJobPerKeyIff`).
* The same submissions pass the depth check together: `DepthHoldsIff` says exactly when the waiting list keeps within
  the queue depth, and `WaitingIsBounded` how far it can exceed it.
* Both fail calls of the Redis adapter ignore the lease token. For the synchronous call `FailAgreesIff` and
  `FailIsSafeIff` say exactly when this does no harm. The asynchronous one can also be interrupted: two calls that
  overlap on a running job make it wait twice (`OverlappingFailsWaitTwice`), although each meets that condition;
  `OverlapIsOrderlyIff` says exactly which complete and fail calls may overlap.
* The RESP client reads its socket as text and takes the byte length of a bulk string for a number of characters. A bulk
  reply with any other than ASCII characters stalls it, and then swallows text of the next reply
  (`WideReplyStalls`, `WideReplyPoisonsTheNext`); `RespEncoding.RoundTripIff` and `DeliveredIff` say exactly which replies it reads.
* `enqueue` overwrites the record of a job id that is in use under another key (`ReusedRunningIdBreaks`);
  `EnqueueKeepsConsistentIff` says exactly which submissions are harmless.
* The comment of `identity-store.js` promises uniqueness by the unique index. In the in-memory collection the index
  check and the insertion are separate steps, and the lock map belongs to one store:
  `SafeIffOneStorePerPair` says exactly when documents stay unique.
* The printed Lua escape for byte 0 is not padded to three digits (section 2.1 of the Lua 5.1 Reference Manual);
  `LuaLiteral.RoundTripIff` says exactly which strings survive.
* The auditor's decoder drops a byte in front of a single padding character, unlike section 4 of RFC 4648;
  `DecodesExactlyIff` says exactly when it is exact.
* The verdict "proven unreachable" can be wrong when thresholds are not strictly nested (`VerdictCanBeWrong`) or leaves
  overwrite one another (`OverwrittenLeafMisleads`); `VerdictsHoldIff` says exactly for which tests it holds.
* The burst limit of one second can be exceeded when the window is shorter than a second; `BurstHoldsIff` says exactly
  when it is kept.
* The limiter joins principal and action with a colon, so a principal id with a colon can share its counts with another
  principal's; `AnsweredAlikeIff` says exactly when.

## Model

| member | source | states |
|---|---|---|
| QueueInvariant.EnqueueKeepsConsistentIff | packages/queue/src/in-memory-queue.js:48-90 | exactly which submissions keep jobs, waiting line, leases, keys and capacity in agreement: refused ones, duplicates, and those whose job id is unused or belongs to a finished job without a key |
| QueueInvariant.ReusedRunningIdBreaks | packages/queue/src/in-memory-queue.js:48-90 | a submission outside that guard, from an empty queue: the id of a running job is submitted under another key, accepted, and the queue is no longer consistent |
| QueueInvariant.EnqueueKeepsInv | packages/queue/src/in-memory-queue.js:48-90 | a submission with an unused id keeps the whole invariant, the fair order of the line included |
| QueueInvariant.LeaseNextKeepsInv | packages/queue/src/in-memory-queue.js:99-135 | leasing keeps the invariant, and returns no job only when the running cap is reached or nothing waits: the popped id is always a QUEUED job, so the check at lines 114-116 never fires |
| QueueInvariant.HeartbeatKeepsInv | packages/queue/src/in-memory-queue.js:145-165 | a heartbeat keeps the invariant, for any job id, token and time |
| QueueInvariant.CompleteKeepsInv | packages/queue/src/in-memory-queue.js:175-193 | completing keeps the invariant and succeeds exactly for the holder of the lease |
| QueueInvariant.FailKeepsInv | packages/queue/src/in-memory-queue.js:203-229 | failing keeps the invariant, retry or not, and succeeds exactly for the holder of the lease |
| QueueInvariant.CancelKeepsInv | packages/queue/src/in-memory-queue.js:238-253 | cancelling any job in any state keeps the invariant |
| QueueInvariant.ReclaimStaleKeepsInv | packages/queue/src/in-memory-queue.js:259-280 | reclaiming keeps the invariant, drops exactly the expired leases and leaves the others as they were |
| QueueInvariant.FirstLeasesInOrder | packages/queue/src/in-memory-queue.js:86-112 | when a job is leased for the first time, every job submitted before it was leased or cancelled already, under any mix of retries, reclaims and cancellations |
| QueueInvariant.StatsAddUp | packages/queue/src/in-memory-queue.js:295-319 | the six counts add up to the number of jobs, the queued count is the length of the line and the running count the number of leases |
| QueueInvariant.StatsAreCounts | packages/queue/src/in-memory-queue.js:295-319 | each reported count is the number of jobs in that state, counted job by job |
| QueueEffects.EnqueueEffect | packages/queue/src/in-memory-queue.js:48-90 | a submission under a known key is answered with that job and changes nothing; else it is refused if the line is full; else it goes to the end of the line, its key being the given one or else its given job id, every field of its record as stated |
| QueueEffects.ReclaimEffect | packages/queue/src/in-memory-queue.js:259-280 | the job of an expired lease is QUEUED again if it has attempts left and TIMED_OUT with LEASE_EXPIRED otherwise, its other fields unchanged; other jobs are untouched; the retried ones come before the old line, last lease first; the other leases stay in order |
| QueueEffects.LeaseEffect | packages/queue/src/in-memory-queue.js:99-135 | after reclaiming, a job is started exactly if one waits and there is room: it is the first of the line, runs its next attempt, and its lease has the given token, worker and duration, or the default one |
| QueueEffects.HeartbeatEffect | packages/queue/src/in-memory-queue.js:145-165 | exactly a holder whose lease has not expired moves its end to now plus the extension, or else the lease's own duration, or else the default |
| QueueEffects.CompleteEffect | packages/queue/src/in-memory-queue.js:175-193 | exactly the holder completes its job with the result, and its lease ends |
| QueueEffects.FailEffect | packages/queue/src/in-memory-queue.js:203-229 | exactly the holder fails its job: one with attempts left goes to the front of the line, another has failed with the error, and its lease ends |
| QueueEffects.CancelEffect | packages/queue/src/in-memory-queue.js:238-253 | exactly a job that is queued or running is cancelled with the reason, leaves the line and loses its lease |
| QueueRuns.EveryRunIsSafe | packages/queue/src/in-memory-queue.js:48-319 | after every run of calls with fresh ids and tokens the invariant holds; running jobs, and waiting plus running jobs, stay within the configured capacity although retries bypass the backpressure check |
| QueueRuns.EveryRunIsBounded | packages/queue/src/in-memory-queue.js:99-280 | n accepted jobs admit at most 2 * n * max(1, maxRetries) state changes, however calls are mixed |
| QueueRuns.EveryHistoryIsLegal | packages/queue/src/types.js:32-52 | the history of every job in every run is a path of valid transitions ending in its present state, nothing follows a terminal state, and its image is a path of valid product transitions |
| QueueRuns.FencedForever | packages/queue/src/in-memory-queue.js:145-229 | a token whose lease is gone is refused by heartbeat, complete and fail for every job, after any further run |
| QueueRuns.EndOfLeaseFences | packages/queue/src/in-memory-queue.js:113-278 | whichever call ends the lease of a job, its token then holds no lease at all |
| QueueRuns.ResubmissionIsDuplicate | packages/queue/src/in-memory-queue.js:50-57 | once a key is taken, every later submission under it is answered with the same job and changes nothing, whatever happened in between |
| JobStates.PathMapsToProductPath | packages/api/src/state-machine.js:41-121 | every path of valid queue transitions maps to a path of valid product transitions |
| JobStates.TransitionsAre | packages/queue/src/types.js:32-52 | the transition table, pair by pair |
| JobStates.ProductTransitionsAre | packages/api/src/state-machine.js:41-84 | the product transition table, pair by pair |
| JobStates.MappingIs | packages/api/src/state-machine.js:100-121 | the mapping, state by state: it keeps ended states apart from others and merges the two kinds of failure only |
| InMemoryQueue.InMemoryJobQueue.constructor | packages/queue/src/in-memory-queue.js:19-36 | a new queue is empty, has the documented default for every missing or zero option, and satisfies the invariant |
| InMemoryQueue.InMemoryJobQueue.Enqueue | packages/queue/src/in-memory-queue.js:48-90 | the object changes and answers as the enqueue function on its value, for which the theorems above are proved |
| InMemoryQueue.InMemoryJobQueue.ReclaimStaleLeases | packages/queue/src/in-memory-queue.js:259-280 | the loop over the lease map, which deletes from it, equals the reclaim function on the value, whose effect `ReclaimEffect` states |
| InMemoryQueue.InMemoryJobQueue.LeaseNextJob | packages/queue/src/in-memory-queue.js:99-135 | the object changes and answers as the lease function on its value |
| InMemoryQueue.InMemoryJobQueue.Heartbeat | packages/queue/src/in-memory-queue.js:145-165 | the object changes and answers as the heartbeat function on its value |
| InMemoryQueue.InMemoryJobQueue.CompleteJob | packages/queue/src/in-memory-queue.js:175-193 | the object changes and answers as the complete function on its value |
| InMemoryQueue.InMemoryJobQueue.FailJob | packages/queue/src/in-memory-queue.js:203-229 | the object changes and answers as the fail function on its value |
| InMemoryQueue.InMemoryJobQueue.CancelJob | packages/queue/src/in-memory-queue.js:238-253 | the object changes and answers as the cancel function on its value |
| InMemoryQueue.InMemoryJobQueue.GetStats | packages/queue/src/in-memory-queue.js:295-319 | reclaims, then reports how many jobs are in each state |
| InMemoryQueue.InMemoryJobQueue.CountJobs | packages/queue/src/in-memory-queue.js:297-308 | the counting loop yields the sizes of the sets of jobs in each state |
| RedisRuns.EveryJobInOnePlace | packages/queue/src/redis-queue-adapter.js:351-557 | in every interleaving of single commands by any number of producers and workers with different job ids, a job is exactly one of: being submitted, waiting (once), in one worker's hands, or settled |
| RedisRuns.NoLostUpdate | packages/queue/src/redis-queue-adapter.js:427-557 | between the GET and the SET of a call no other write to the record falls: the stored record is still the one read; a popped id is found QUEUED and a lease key carries its holder's token |
| RedisRuns.StepIsLegal | packages/queue/src/redis-queue-adapter.js:427-557 | every single command changes a job record by a valid transition or not at all, and never lowers its attempts |
| RedisRuns.SettledForever | packages/queue/src/redis-queue-adapter.js:351-557 | a completed or finally failed job is never changed again in any interleaving |
| RedisRuns.EveryJobWithinAttempts | packages/queue/src/redis-queue-adapter.js:427-557 | no job is attempted more than max(1, maxRetries) times in any interleaving |
| RedisKeys.DuplicateIffRecorded | packages/queue/src/redis-queue-adapter.js:354-363 | in every reachable state: a submission that looks up its key is answered as a duplicate, with a job under that key, exactly when the key is recorded at that moment, whatever happens later |
| RedisKeys.AcceptedKeyIsKnown | packages/queue/src/redis-queue-adapter.js:372-395 | once a submission has been answered as accepted, its key is recorded for a stored job that carries it, as long as the key has not expired since |
| RedisKeys.RecordedIffAccepted | packages/queue/src/redis-queue-adapter.js:354-395 | while a key does not expire, it is recorded exactly when some submission under it has been answered as accepted |
| RedisKeys.DuplicateIffEarlierAccepted | packages/queue/src/redis-queue-adapter.js:354-395 | in terms of answers alone: while its key does not expire, a submission is a duplicate exactly when another one under that key had been answered as accepted before it looked |
| RedisKeys.LateSubmissionIsDuplicate | packages/queue/src/redis-queue-adapter.js:354-363 | a submission that looks up its key after another one under it was answered as accepted, the key not having expired since, gets a job under that key and creates none |
| RedisKeys.OneJobPerKeyIff | packages/queue/src/redis-queue-adapter.js:354-395 | from an empty store: every interleaving keeps at most one job per key, as docs/job-lifecycle.md line 48 promises, exactly when no two submissions share a key or nothing is ever accepted |
| RedisKeys.ConcurrentSubmissionsBothAccepted | packages/queue/src/redis-queue-adapter.js:354-395 | any two submissions with keys, equal or not, can both be accepted on an empty store, each with its own job and both waiting, even when the queue depth is 1 |
| RedisKeys.SameIdWaitsTwice | packages/queue/src/redis-queue-adapter.js:372-389 | two concurrent submissions of one job id make it wait twice, so different ids are needed |
| RedisDepth.WaitingIsBounded | packages/queue/src/redis-queue-adapter.js:365-389 | with any ids and keys, in every interleaving with at most c submissions at a time between depth check and push: no more than depth - 1 + c + workers jobs wait |
| RedisDepth.DepthHoldsIff | packages/queue/src/redis-queue-adapter.js:365-389 | from an empty store: every interleaving keeps the waiting list within the queue depth exactly when there are no more submissions than that, or nothing is ever accepted |
| RedisOverlap.OverlapIsOrderlyIff | packages/queue/src/redis-queue-adapter.js:480-557 | let any workers hold, or be in the middle of completing or failing, any running jobs: all interleavings keep the waiting list free of duplicates and every change of a record valid exactly when no two of them have the same job |
| RedisOverlap.OneMoreCallIsTooMany | packages/queue/src/redis-queue-adapter.js:480-557 | in every reachable state, one more call on a running job can make a job wait twice or change a record against the table |
| RedisOverlap.OverlappingFailsWaitTwice | packages/queue/src/redis-queue-adapter.js:532-557 | two fail calls that both read a job with attempts left before either writes make it wait twice |
| RedisSync.SynchronousRedisClient.RPop | packages/queue/src/redis-queue-adapter.js:213-218 | takes the value at the right end of the waiting list, or answers null when it is empty |
| RedisSync.RedisQueueAdapter.Enqueue | packages/queue/src/redis-queue-adapter.js:300-349 | the commands leave the shared store as the enqueue function says |
| RedisSync.RedisQueueAdapter.LeaseNextJob | packages/queue/src/redis-queue-adapter.js:399-425 | the commands leave the shared store as the lease function says |
| RedisSync.RedisQueueAdapter.CompleteJob | packages/queue/src/redis-queue-adapter.js:457-478 | the commands leave the shared store as the complete function says |
| RedisSync.RedisQueueAdapter.FailJob | packages/queue/src/redis-queue-adapter.js:506-530 | the commands leave the shared store as the fail function says |
| RedisSync.EnqueueSyncIsEnqueueAlone | packages/queue/src/redis-queue-adapter.js:300-397 | the synchronous enqueue is the asynchronous one run without interruption |
| RedisSync.LeaseSyncIsLeaseAlone | packages/queue/src/redis-queue-adapter.js:399-455 | the synchronous lease is the asynchronous one run without interruption |
| RedisSync.CompleteSyncIsCompleteAlone | packages/queue/src/redis-queue-adapter.js:457-504 | the synchronous complete is the asynchronous one run without interruption |
| RedisSync.FailSyncIsFailAlone | packages/queue/src/redis-queue-adapter.js:506-557 | the synchronous fail is the asynchronous one run without interruption |
| RedisSync.EnqueueAgrees | packages/queue/src/redis-queue-adapter.js:300-349 | with the list read backwards as the waiting queue, enqueue answers as the in-memory queue and keeps the match |
| RedisSync.LeaseAgreesIff | packages/queue/src/redis-queue-adapter.js:399-425 | lease agrees with the in-memory queue exactly when no lease has expired and either nothing waits or the running cap is not reached |
| RedisSync.CompleteAgrees | packages/queue/src/redis-queue-adapter.js:457-478 | complete answers as the in-memory queue and keeps the match, for any token |
| RedisSync.FailAgreesIff | packages/queue/src/redis-queue-adapter.js:506-530 | fail, which does not look at the token, agrees with the in-memory queue exactly for the lease holder and for unknown jobs |
| RedisSync.RedisRefinesQueue | packages/queue/src/redis-queue-adapter.js:300-530 | over whole runs that meet these conditions the adapter gives the same answers and ends with the same jobs, keys, leases and line |
| RedisSync.FailIsSafeIff | packages/queue/src/redis-queue-adapter.js:506-530 | exactly which uninterrupted fail calls keep the waiting line right and make a valid state change: those on unknown or running jobs, and on failed jobs without attempts left |
| RedisSync.RepeatedFailWaitsTwice | packages/queue/src/redis-queue-adapter.js:506-530 | a call outside that condition, from an empty store: submit, lease, fail with an attempt left, fail again, and the job waits twice |
| RedisSync.KeysNeverClash | packages/queue/src/redis-queue-adapter.js:292-295 | the four kinds of keys under one prefix never coincide and determine the id |
| RespParser.ParseResp | packages/queue/src/redis-queue-adapter.js:116-149 | the parser equals the recursive parse function on every text |
| RespParser.ParseElements | packages/queue/src/redis-queue-adapter.js:138-146 | the loop over an array, with its growing offset, equals the recursive function on every text and count |
| RespParser.ParseStable | packages/queue/src/redis-queue-adapter.js:116-149 | a text that parses still parses to the same reply with any text behind it |
| RespParser.NumeralReads | packages/queue/src/redis-queue-adapter.js:125-140 | a number in a reply is read as its value behind white space and with either sign, whatever follows its digits |
| RespParser.OnlyNumeralsRead | packages/queue/src/redis-queue-adapter.js:125-140 | nothing else is read as a number |
| RespParser.OddReplies | packages/queue/src/redis-queue-adapter.js:116-149 | a reply of an unknown type is waited on for ever, an array without a count or with a negative one other than -1 is empty, and an integer without digits is NaN |
| RespEncoding.RoundTripIff | packages/queue/src/redis-queue-adapter.js:116-149 | a well-formed reply of any nesting, encoded with byte lengths as in RESP2 and followed by any text, parses to its value and uses up exactly itself exactly when all its bulk strings are ASCII |
| RespEncoding.PrefixIsIncomplete | packages/queue/src/redis-queue-adapter.js:117-144 | no strict prefix of an encoded reply with ASCII bulk strings parses |
| RespCommands.BuildCommand | packages/queue/src/redis-queue-adapter.js:87-91 | the text written for a command, as a function of the arguments |
| RespCommands.CommandReadsBackIff | packages/queue/src/redis-queue-adapter.js:87-149 | a written command parses back to its arguments exactly when all of them are ASCII, since lengths are written in bytes and read in characters |
| RespClient.MinimalRedisClient.ProcessBuffer | packages/queue/src/redis-queue-adapter.js:102-114 | the loop that takes replies off the buffer equals the process function |
| RespClient.MinimalRedisClient.OnData | packages/queue/src/redis-queue-adapter.js:49-52 | a chunk is appended and processed |
| RespClient.MinimalRedisClient.SendCommand | packages/queue/src/redis-queue-adapter.js:85-99 | the callback is queued last and the command text returned |
| RespClient.ProcessInTwo | packages/queue/src/redis-queue-adapter.js:102-114 | processing early and then the rest equals processing all at once, for any text |
| RespClient.ChunkingDoesNotMatter | packages/queue/src/redis-queue-adapter.js:49-114 | however a text is cut into chunks, the same replies are delivered and the same text is left over |
| RespClient.RepliesInOrder | packages/queue/src/redis-queue-adapter.js:102-114 | complete replies with ASCII bulk strings are handed to the waiting callbacks in order, and an incomplete tail stays |
| RespClient.DeliveredIff | packages/queue/src/redis-queue-adapter.js:102-149 | given a callback for each, a list of well-formed replies is delivered as what it means exactly when all bulk strings are ASCII |
| RespClient.WideReplyStalls | packages/queue/src/redis-queue-adapter.js:102-136 | a complete bulk reply with any other character is not delivered: the client waits for more |
| RespClient.WideReplyPoisonsTheNext | packages/queue/src/redis-queue-adapter.js:102-136 | the reply to a stored accented e followed by +OK: the first command gets a carriage return too many, the second is never answered whatever comes after |
| RespClient.RepliesMatchCommands | packages/queue/src/redis-queue-adapter.js:49-114 | for replies with ASCII bulk strings and any mix of sends and chunks in which the server does not run ahead, the replies received in full are those delivered, the n-th to the n-th command |
| RespClient.NthReplyToNthCommand | packages/queue/src/redis-queue-adapter.js:28-114 | from a new client on, for replies with ASCII bulk strings: when all have come, each was handed to its command, later commands still wait and nothing is left over |
| CfgTree.CFGAuditor.TraverseTree | audit/cfg-auditor.js:44-75 | the traversal fills the state map as the recursive function says, leaves that overwrite one another included |
| CfgTree.CFGAuditor.RecordLeafState | audit/cfg-auditor.js:77-185 | a leaf is filed under the id computed from its interval, or from the counter when neither end is finite |
| CfgTree.StateIdIs | audit/cfg-auditor.js:77-185 | the id of a leaf is the middle of its interval rounded down, or else the first or last value in it, or else the counter |
| CfgTree.CFGAuditor.FindBlock | audit/cfg-auditor.js:190-197 | the loop yields the first recorded state whose interval has the value |
| CfgTree.RangesOverApproximate | audit/cfg-auditor.js:44-75 | whatever the thresholds, the interval recorded for a leaf has every value whose tests can lead to it |
| CfgTree.NoneEmptyIffProper | audit/cfg-auditor.js:44-75 | for complete trees: no recorded interval is empty exactly when every threshold lies strictly inside the interval its test inherits |
| CfgTree.RangesAreExact | audit/cfg-auditor.js:44-75 | under such thresholds a leaf's interval is exactly the set of values that lead to it |
| CfgTree.ProperTreeIsRecorded | audit/cfg-auditor.js:77-185 | under such thresholds the ids are distinct, each lies in its own interval, and the states are exactly the leaves in order: none overwrites another |
| CfgTree.FindIsEvaluation | audit/cfg-auditor.js:190-197 | under such thresholds a value is resolved to a leaf exactly when evaluating the tests leads there |
| CfgTree.FindNothing | audit/cfg-auditor.js:190-197 | under such thresholds a value is resolved to nothing exactly when the tests fall through a missing else branch |
| CfgReach.TraverseFilesById | audit/cfg-auditor.js:44-185 | for every tree, states are filed under their own ids and the map is well formed |
| CfgReach.Search | audit/cfg-auditor.js:241-286 | the worklist search ends; proven is exactly what unconditional transitions reach, proven and conditional together exactly what any resolved transition or closure reaches, unknown exactly the reached blocks with dynamic transitions |
| CfgReach.StepKeepsSearch | audit/cfg-auditor.js:251-286 | one turn of the search keeps: found blocks are justified by a path, and each is queued or has all its successors found |
| CfgVerdict.ConnectEdges | audit/cfg-auditor.js:200-232 | the edge-building loops give every block the list of edges in order: per source its transitions, then its closures, last the root call |
| CfgVerdict.NoIncomingEdges | audit/cfg-auditor.js:200-232 | the list of a block is empty exactly when it is not the root's and no recorded block steps to it |
| CfgVerdict.EdgesAreCounted | audit/cfg-auditor.js:200-232 | the list of a block has exactly one edge per jump resolved to it, conditional or not as the jump is, one per closure, and one for the root call |
| CfgVerdict.EdgesAreInOrder | audit/cfg-auditor.js:200-232 | the edges come per source in recording order, jumps before closures, and the root call last |
| CfgVerdict.Categorize | audit/cfg-auditor.js:289-342 | every state gets its verdict and the four lists are the ids with each verdict, in order |
| CfgVerdict.ReportPartitions | audit/cfg-auditor.js:289-342 | the four lists together have every recorded state exactly once |
| CfgVerdict.Audit | audit/cfg-auditor.js:42-342 | the whole audit of any tree: every verdict is the stated judgement about reachability by paths, and the lists partition the states |
| CfgRuns.TargetIsFirst | audit/cfg-auditor.js:190-197 | when ids are distinct a value is resolved to the first leaf whose interval has it |
| CfgRuns.ResolvedVerdictsHold | audit/cfg-auditor.js:298-342 | if the audit resolves the leaves, no run of the dispatcher visits a block reported as proven unreachable |
| CfgRuns.ProperVerdictsHold | audit/cfg-auditor.js:298-342 | strictly nested thresholds suffice: no run visits a block reported as proven unreachable |
| CfgRuns.VerdictsHoldIff | audit/cfg-auditor.js:298-342 | for all tests, overwritten leaves included: the verdict holds of all runs and all block contents exactly when every value that leads to a recorded leaf is resolved to it unless the root entry is, and a value that leads to an overwritten leaf is so resolved for all recorded leaves |
| CfgRuns.VerdictCanBeWrong | audit/cfg-auditor.js:298-342 | a tree without strict nesting on which a run visits a block reported as proven unreachable |
| CfgRuns.OverwrittenLeafMisleads | audit/cfg-auditor.js:77-342 | a tree with a test that does not fold, whose two leaves get one id: a run through the overwritten one visits a block reported as proven unreachable |
| IdentityStore.MemoryMongoCollection.Find | packages/api/src/auth/identity-store.js:28-40 | the loop yields the first document of the pair, or none |
| IdentityStore.StepKeepsInv | packages/api/src/auth/identity-store.js:129-212 | every step between two awaits keeps: locks match their holders, documents are unique, and what each call knows about the collection is true |
| IdentityStore.EveryInterleavingIsSafe | packages/api/src/auth/identity-store.js:129-212 | in every interleaving of any number of calls there is at most one document per pair, no call fails, and every returned identifier is that of the pair's document |
| IdentityStore.CallersAgree | packages/api/src/auth/identity-store.js:129-212 | all calls for one pair return the same principal |
| IdentityStore.PrincipalsStayDistinct | packages/api/src/auth/identity-store.js:129-212 | generated identifiers being fresh, two finished calls with different pairs return different principals, in every interleaving and through any stores |
| IdentityStore.SomeCallCanStep | packages/api/src/auth/identity-store.js:141-147 | while a call is unfinished some call can step, so waiting on lock promises never deadlocks |
| IdentityStore.EveryInterleavingEnds | packages/api/src/auth/identity-store.js:129-212 | n calls take at most n * (2 * n + indexes + 6) steps in any interleaving, and one that cannot go on has finished every call |
| IdentityStore.SafeIffOneStorePerPair | packages/api/src/auth/identity-store.js:42-60 | for several stores over one collection: every interleaving keeps documents unique exactly when all calls for a pair without a document go through one store |
| IdentityOutcome.RejectedOnlyIfInvalid | packages/api/src/auth/identity-store.js:129-212 | in every interleaving, through any stores: a call is rejected only for an empty provider or subject, such a call gets no further, and none fails |
| IdentityOutcome.EveryCallReturns | packages/api/src/auth/identity-store.js:129-212 | when nobody can step any more, every call with a provider and a subject has returned a principal, and every other one was rejected |
| IdentityOutcome.KnownPairKeepsItsPrincipal | packages/api/src/auth/identity-store.js:150-164 | calls for a pair that had a document return that document's principal, and the pair gets no other document |
| IdentityOutcome.NewPairGetsOnePrincipal | packages/api/src/auth/identity-store.js:129-212 | calls through one store for a pair that had none: exactly one document is added, by one of them, and its new identifier is what they all return |
| IdentityOutcome.IndexCatches | packages/api/src/auth/identity-store.js:42-60 | through any stores: a call whose pair gets a document before its last index check adds none and returns the first document's principal |
| IdentityOutcome.OnlySamePairWaits | packages/api/src/auth/identity-store.js:139-147 | a waiting call waits for a call of the same store and, providers having no colon, of the same pair |
| LuaLiteral.ToLuaLiteral | packages/shared/src/bytestring.js:72-105 | the printing loop equals the concatenation of the escapes of the bytes |
| LuaLiteral.FromLuaLiteral | packages/shared/src/bytestring.js:112-190 | the reading loop equals the item-by-item reader, long brackets included |
| LuaLiteral.ReadItem | packages/shared/src/bytestring.js:130-186 | one turn of the loop reads exactly one item: plain character, decimal, hexadecimal, letter or white space escape |
| LuaLiteral.ReadsBackAbsorbed | packages/shared/src/bytestring.js:72-190 | for every byte sequence and both quotes, what comes back is the sequence with every zero merged with up to two digit bytes after it |
| LuaLiteral.RoundTripIff | packages/shared/src/bytestring.js:72-190 | printing and reading gives the bytes back exactly when no zero byte is directly followed by a digit byte |
| LuaLiteral.DigitsAreAbsorbed | packages/shared/src/bytestring.js:76-77 | the bytes 0, 48, 49 come back as the single byte 1 |
| LuaLiteral.LiteralIsPrintable | packages/shared/src/bytestring.js:72-105 | the literal is printable ASCII and between n + 2 and 4 * n + 2 characters long |
| LuaLiteral.ReadString | packages/core/src/lexer/lexer.js:161-185 | the lexer's string loop equals the scan for the closing quote, with the decoded value |
| LuaLiteral.PrintedLiteralIsOneToken | packages/core/src/lexer/lexer.js:161-185 | a printed literal in front of any text is one token: the scan stops at its last quote, never at a newline, and decodes the printed bytes |
| LuaLiteral.LongBracketReadsBack | packages/shared/src/bytestring.js:118-126 | a long bracket of any level around any content yields the content less one leading newline, even if it has closing brackets |
| LuaEscapes.ReadsWhatIsMeant | packages/shared/src/bytestring.js:128-190 | any body written by the grammar of escapes is read as exactly the bytes its items stand for: plain characters, decimal, hexadecimal and letter escapes, skipped white space, a bare x, unknown letters and a last backslash |
| LuaEscapes.EveryTextIsWritten | packages/shared/src/bytestring.js:128-190 | the grammar leaves nothing out: every text is written by its items, none of which runs into the next |
| LuaEscapes.QuotedReadsItems | packages/shared/src/bytestring.js:112-190 | the same between either kind of quotes |
| LuaEscapes.BareReadsItems | packages/shared/src/bytestring.js:112-190 | the same for every text in neither quotes nor a long bracket, but for a lone quote, which is read as nothing |
| LuaEscapes.PrintsItems | packages/shared/src/bytestring.js:72-105 | the printer writes every byte by its item: itself if printable, a letter or a backslash where one exists, its number otherwise |
| LuaEscapes.TokenOfItems | packages/core/src/lexer/lexer.js:161-185 | items that fit in the line up to a quote are one token with their bytes, whatever follows; up to a line break, the end of the text or a last backslash they are an error |
| NativeScan.Scan | native/src/main.cpp:39-161 | the scanner stays in bounds, ends, and its counters equal the item, line and depth counts of the text, in all lexical modes |
| NativeScan.ScanItem | native/src/main.cpp:46-157 | one turn of the main loop reads one lexical item and counts its token and nesting |
| NativeScan.ScanComment | native/src/main.cpp:56-78 | line and block comments are skipped as one item, with lines counted |
| NativeScan.ScanString | native/src/main.cpp:80-101 | a string ends at its unescaped quote or at the end of the text |
| NativeScan.ScanLong | native/src/main.cpp:103-117 | a long bracket ends behind its first closing bracket or at the end of the text |
| NativeScan.ScanNumber | native/src/main.cpp:128-146 | a number takes letters, digits, dots, underscores, and signs behind an exponent letter |
| NativeScan.ReportMeans | native/src/main.cpp:39-161 | depth <= tokens <= bytes; lines is one more than the newlines; the line length is the longest stretch without a newline |
| NativeScan.FirstIsStable | native/src/main.cpp:46-157 | an item that ends before the text does is not changed by text added behind it |
| NativeScan.ReadsInTwo | native/src/main.cpp:46-157 | behind a newline read as white space between items, token counts add up and the depth is the greater of both parts' |
| NativeScan.AppendingNeverRelaxes | native/src/main.cpp:39-174 | appending text there adds tokens and lines, shrinks neither depth nor line length, and never raises the recommended stage |
| NativeScan.StageIff | native/src/main.cpp:163-174 | each stage is recommended exactly within its budgets of bytes, tokens, depth and line length |
| NativeLexemes.ReportOfLexemes | native/src/main.cpp:39-161 | for any text written by the grammar of lexemes the token count is the number of lexemes that are neither white space nor comments, and the depth is the greatest number of brackets open at a time |
| NativeLexemes.EveryTextIsWritten | native/src/main.cpp:46-157 | the grammar leaves nothing out: every text is written by its lexemes, none of which runs into the next |
| RateLimiting.RateLimiter.CheckLimit | packages/gateway/src/rate-limiter.js:34-71 | the timestamps of the key and the decision are those of the check function; other keys are untouched; `DecisionIff` and `AnsweredAlikeIff` say what that means |
| RateLimiting.RateLimiter.AcquireConcurrency | packages/gateway/src/rate-limiter.js:79-95 | a slot is taken exactly while the principal has fewer than the maximum |
| RateLimiting.RateLimiter.ReleaseConcurrency | packages/gateway/src/rate-limiter.js:102-109 | a slot is given back, and the last one removes the entry |
| RateLimiting.EverySpanIsWithinLimits | packages/gateway/src/rate-limiter.js:34-71 | in every run with a clock that does not go back, every half-open window has at most maxRequests admitted calls per key, and every second, or window if shorter, at most burstLimit |
| RateSeparation.DecisionIff | packages/gateway/src/rate-limiter.js:34-71 | exactly when a call is admitted after a run, in numbers of earlier admissions: refused for its burst, else refused for its window, else admitted with the requests that remain |
| RateSeparation.EachPrincipalCountsAlone | packages/gateway/src/rate-limiter.js:34-41 | principal ids having no colon: a call is answered as if only that principal's calls for that action had come before |
| RateSeparation.AnsweredAlikeIff | packages/gateway/src/rate-limiter.js:34-41 | for all ids: two pairs of principal and action are answered alike, whatever the limits and calls, exactly when they are equal or one id goes on with a colon where the other's action begins |
| RateSeparation.OnlyCountingCallsMatter | packages/gateway/src/rate-limiter.js:34-41 | for all ids: only the calls of such pairs matter to an answer |
| RateLimiting.BurstHoldsIff | packages/gateway/src/rate-limiter.js:34-71 | for all limits: at most burstLimit admitted calls per key and second in every run exactly when nothing is ever admitted, or as many windows as fill a second do not admit more; with burstLimit <= maxRequests that is a window of at least a second |
| RateLimiting.ResetIsExact | packages/gateway/src/rate-limiter.js:54-63 | the reported wait is the least after which the next call is admitted, any shorter wait is denied again, and there is none exactly when no request is ever allowed |
| RateLimiting.SlotsAreBounded | packages/gateway/src/rate-limiter.js:79-109 | the active count never exceeds the maximum, and is the number of slots held when only holders give slots back |
| StringAudit.Rotate | audit/string-auditor.js:62-70 | the swapping loop reverses the segment in place, or does nothing when it is out of bounds |
| StringAudit.RotatedReverses | audit/string-auditor.js:62-70 | exactly the entries from the first to the last index, if there are that many, come in reverse order |
| StringAudit.RotateAll | audit/string-auditor.js:62-70 | the ranges are applied one after the other |
| StringAudit.BackwardsUndoes | audit/string-auditor.js:62-70 | any list of ranges is undone by the same list backwards |
| StringAudit.RotatedAllIsPermutation | audit/string-auditor.js:62-70 | no list of ranges loses or repeats an entry |
| StringAudit.IsValidEntry | audit/string-auditor.js:105-125 | an entry is accepted exactly when it is letters of the alphabet followed by padding only |
| StringAudit.Decode | audit/string-auditor.js:128-151 | the decoding loop equals the recursive decoder on every text |
| StringAudit.DecoderInvertsEncoding | audit/string-auditor.js:128-151 | on the padded encoding over any 64 distinct letters the decoder gives the bytes back, less exactly the last one when the length is 2 modulo 3 |
| StringAudit.DecodesExactlyIff | audit/string-auditor.js:144-149 | the decoder inverts the padded encoding exactly when the length is not 2 modulo 3 |
| StringAudit.EveryEntryDecodes | audit/string-auditor.js:128-151 | whoever encoded it: each full group of letters gives its three bytes, and padding at most the first byte of an unfinished one, or two if another character follows |
| StringAudit.ForeignIsSkipped | audit/string-auditor.js:128-151 | a character that is neither a letter nor padding is skipped |
| StringAudit.ValidEntriesAreSpelled | audit/string-auditor.js:105-151 | every accepted entry is letters followed by padding, so the results above cover it |
| StringAudit.EncodingsAreWellFormed | audit/string-auditor.js:105-125 | every padded encoding passes the validation |
| Sessions.MemorySessionStore.CreateSession | packages/api/src/auth/session-store.js:83-102 | stores the new session under the hash of its token |
| Sessions.MemorySessionStore.GetSession | packages/api/src/auth/session-store.js:104-119 | returns and touches the session of a live token, and deletes an expired one |
| Sessions.MemorySessionStore.RotateSession | packages/api/src/auth/session-store.js:121-148 | moves a live session to a new token, and deletes an expired one |
| Sessions.MemorySessionStore.DestroySession | packages/api/src/auth/session-store.js:150-156 | deletes the session of the token, if any |
| Sessions.OneLiveToken | packages/api/src/auth/session-store.js:83-156 | in every run with fresh tokens at most one token is live per created session |
| Sessions.AccessIff | packages/api/src/auth/session-store.js:54-71 | a token gives access exactly while it is the current one of its session and neither TTL, counted from the original creation and the last successful use, has passed; always to the same principal, with the number of rotations and the CSRF token generated last |
| Sessions.DeadStaysDead | packages/api/src/auth/session-store.js:104-156 | a token that was rotated away, destroyed or found expired never gives access again |
| Sessions.RotationKills | packages/api/src/auth/session-store.js:121-148 | rotating leaves the old token without access |
| Sessions.ExpiredStaysExpired | packages/api/src/auth/session-store.js:54-71 | a session past one of its TTLs is never used again by any later call, whatever token is presented |

## Left out

- The asynchronous calls of the Redis adapter and the identity store are step systems rather than methods, since their methods suspend in the middle; every other stateful class is a class here.
- One clock reading per call: a call that reads the clock twice is modelled with one reading, passed as an argument; random tokens and identifiers are arguments too, assumed fresh where a statement says so.
- Event emitters, sockets, files, JSON text, logging, environment variables and command line output. Stored JSON is modelled as the value it encodes, and the separate maps of the Redis store are justified by `KeysNeverClash`.
- Records returned to callers of the in-memory queue are values: a caller that keeps and mutates a returned record is not modelled. `getJob` only reads.
- Redis expiry is a step that may remove a lease or idempotency key at any time; how long a key lives at least is not modelled.
- EveryJobInOnePlace: assumes different job ids, and workers that finish the job they hold once with the token they were given; `SameIdWaitsTwice` and `OverlapIsOrderlyIff` show that both are needed.
- Bulk string lengths that are not numbers, or are below -1, make the modelled client stop where JavaScript slicing would continue with an undefined length; characters outside the basic plane and `parseInt` on non-ASCII white space are not modelled.
- RepliesMatchCommands: for well-formed replies with ASCII bulk strings only, which `DeliveredIff` shows to be needed; a connection error that rejects a pending callback is not modelled.
- The auditor's analysis of statements is taken as given: a block is its list of transitions and closure targets. Thresholds and targets are integers. Assignments nested deeper inside a block, which the auditor does not see, are not seen by the run semantics either.
- A leaf that another one overwrites is not in the auditor's report, so there is no verdict about it to judge; what it does to the verdicts about other leaves is part of `VerdictsHoldIff`.
- The collection of the identity store is the in-memory one; a MongoDB server checks its index atomically. Metadata, roles and the read-only lookups are left out.
- LuaLiteral.ToLuaLiteral: for the two quote characters its documentation allows.
- RateLimiting: option values are integers; the asynchronous check of the Redis-backed limiter, a fixed-window counter kept by the server, is not part of this model.
- Alphabet values outside 0 to 63 and entry counts of the string audit report are left out.
- Session metadata, CSRF validation and the MongoDB and Redis adapters are left out; hashing is taken as injective.
- The scanner's counters are unbounded; they never exceed the number of bytes plus one, so its machine integers do not wrap. Character classes are those of the "C" locale.
- The deobfuscation engine, the HTTP servers, the Discord and voice services, the artifact store and the report scripts, which are I/O or depend on components outside this model.
