# fast-repo: the segmented fetch, the storage engine, and the glue between handles

fast-repo is an NDN repository: it fetches data packets on command, keeps them in a database ordered by
key bytes, and answers interests for them. This project models three parts of it and proves what their
designs promise.

**The segmented insert protocol.** In this revision of the repository its handler is compiled out (`#if
0`, `src/handles/write-handle.cpp:134`); it is modelled as written. `FetchSession` says what one process
is meant to do, as a machine over the answers it gets: a set of outstanding block ids, a frontier of ids
not requested yet, sets of received, rejected and inserted ids. `FetchProperties` proves its guarantees
over every run, `FetchDeadline` when it reports that its end is not known, and `FetchOutcomes` how it can
end. `SegmentedWriteHandle` is the handle as the code has it, a process table whose entries carry a
credit counter, a send queue, a map of retry counts and a status; every callback is proved to take the
step of the machine that it stands for, process by process, so the guarantees hold of the table. The
environment chooses which outstanding interest is answered, what FinalBlockId it names, whether the
validator and the storage accept it, and when status checks and deletions happen.

**The storage engine.** `Names` has NDN names and the URIs that serve as keys (NDN Packet Format
Specification, section "Name", for the URI scheme), `KeyOrder` the byte order of the keys,
`LongestPrefixes` what the startup scan computes seen as a set of names, `KeyTrie` the linked trie that
computes it, and `Storage` puts, gets, prefix reads and the scan.

**The glue.** `FastRepo` (the prefixes served), `SingleInsert`, `CounterFetch`, `PatternTable` and
`PatternHandle` are the live handlers. `RepoRuns` composes them into runs of the whole repository and
proves that what is stored is served. `Fetchers` and `Repository` are the wired objects, whose callbacks
are proved to follow `RepoRuns`.

Where a class keeps a ghost value next to its fields, that value is the state of the simple machine
above it, and `Valid()` ties the two together.

## Where the code does not do what it says

Each of these is kept as the code has it, with an example input and the exact condition under which the
expected property does hold.

- Status 200 counts insertions without looking at which ids were inserted. When a FinalBlockId sets or
  lowers the end below an id already requested, ids above the new end still count: the second block of a
  range naming the first as the last one completes the process with the first missing
  (`CompleteTooEarly`). From then on 200 can be trusted exactly when no id beyond the end was requested,
  as long as nothing was rejected or refused (`TrustedUntilTheEndIsPassed`); `CompleteMeansAllInserted`
  has the condition in general. Over a whole run it always is if the end is not lowered
  (`GivenRangeComplete`) or if the producer answers nothing above the block it names as the last one
  (`TruthfulRunComplete`).
- Answers get lost without a retry: one that fails validation is dropped together with its credit, and one
  that the storage refuses is never counted or asked for again. Either stalls a command for one block
  (`StalledByOneRejection`, `StalledByOneRefusal`). A live command whose end was not lowered and that waits
  for nothing has status 200 exactly when every answer was accepted and stored (`CommandSettles`). In
  general a live process that knows its end has it exactly when no more answers are lost or still to come
  than ids beyond the end were requested (`CompleteExactly`, `SettledMeansComplete`). One that waits for no
  block of its range never received some block of it exactly when an answer inside the range was rejected
  (`StallsOnlyByRejection`). A process that waits for nothing and has no deletion scheduled gets nowhere any
  more (`StuckForGood`), and it can leave the table exactly if something is outstanding (`CanStillLeave`).
- `src/handles/write-handle.hpp:122` promises that a process terminates if its end is not learned in time.
  A process that has twelve answers rejected and whose deadline passes reports 405 and stays in the table
  (`NeverTerminated`). While the end is unknown and no deletion is scheduled, this happens exactly when
  all twelve were rejected (`UnknownEndStalls`). Otherwise the promise holds in the count of answers: past
  the deadline, until a FinalBlockId arrives, a process handles at most 48 (`LateProcessSettles`).
- `isLeaf` is never set, so the walk for the longest prefixes runs past a stored name that is a proper
  prefix of others: with /a and /a/b stored, /a gets no registered prefix (`ShorterNameUncovered`).
  `CoverageExact` says which stored names are covered.
- A prefix read compares byte strings: an interest for /a/b can be answered with /a/bc
  (`StragglerWins`). The answer extends the interest exactly when the store holds a matching extension
  that no matching straggler sorts after (`AnswerExtendsExactly`).
- With both suffix limits set, the check is a disjunction: /a/b/c answers an interest for /a that allows
  one component (`BothLimitsMissed`). It enforces the limits exactly when an interest carries at most one
  of them (`LimitsEnforcedUnlessBoth`), and with both set it accepts everything exactly when they leave no
  gap (`BothLimitsAcceptAll`).
- A single insert whose write fails announces the empty name: the root prefix is served
  (`RootServedForNothing`) and no further prefix is ever registered (`FailedInsertServesTheRoot`).
  Otherwise the root is announced only for an empty stored name (`RootIsServedExactly`). `ServedInRun` says
  for every name when it comes to be served.
- A counter pattern registers no callback for an interest that times out. One lost answer
  (`FirstInterestLost`) leaves it at rest short of its ten packets, while it still counts as running;
  an uncancelled pattern at rest has all ten exactly when nothing was lost (`LossStopsShort`), and at rest
  nothing but a cancellation happens to it (`RestsForGood`).

The documented rule that a block which keeps timing out ends its process also holds of blocks that nobody
needs any more, because the end came down below them (`DroppedForANeedlessBlock`); `LeavesTableExactly`
says when a process leaves the table.

One comment disagrees with the code without more: a cancel request for an inactive prefix is answered 402,
where `src/handles/pattern-handle.cpp:179` says 404. The code's value is modelled.

## Model

The main results come first, then the rest by module.

| member | source | states |
|---|---|---|
| FetchOutcomes.CompleteMeansAllInserted | src/handles/write-handle.cpp:254-267 | status 200 for the end as it stands can be trusted in every continuation iff no id beyond the end was requested, or too few answers can still come to fill the count, or only those of the range can |
| FetchOutcomes.TrustedUntilTheEndIsPassed | src/handles/write-handle.cpp:257-265 | with nothing rejected or refused: iff no id beyond the end has been requested, a comparison of the end with the next id when the end is set |
| FetchProperties.GivenRangeComplete | src/handles/write-handle.cpp:246-275 | commanded range never lowered: status 200 iff every id in [start, end] was inserted, over every run |
| FetchOutcomes.CleanRunCompletes | src/handles/write-handle.cpp:379-389 | over every run with a given end in which nothing is rejected or refused and no block times out four times: at most 4n answers, and once no block of the range is outstanding status 200 and, unless the end was lowered, exactly the range inserted |
| FetchOutcomes.CleanRunLearnsItsEnd | src/handles/write-handle.cpp:254-267 | the same without a commanded end, against a producer whose data end at last, in runs without a deletion: once the end was learned and no block up to it is outstanding, status 200 and exactly the blocks up to the last one inserted; requests beyond the last block may stay open |
| FetchOutcomes.LeavesTableExactly | src/handles/write-handle.cpp:465-471 | over every run, a process has left the table iff a scheduled deletion came or some block timed out four times |
| FetchOutcomes.CanStillLeave | src/handles/write-handle.cpp:232-236 | a live process with no deletion scheduled can still leave the table iff something is outstanding |
| FetchOutcomes.UnknownEndStalls | src/handles/write-handle.cpp:361-376 | over every run with the end unknown and no deletion scheduled: nothing is outstanding iff all twelve answers of the window were rejected |
| FetchProperties.StallsOnlyByRejection | src/handles/write-handle.cpp:232-236 | a live process with a known end and no block of its range outstanding never received one of them iff an answer in its range was rejected |
| FetchOutcomes.CommandSettles | src/handles/write-handle.cpp:270-274 | over every run of a command whose end was not lowered: live and waiting for nothing, its status is 200 iff every answer was accepted by the validator and stored |
| FetchProperties.LateProcessSettles | src/handles/write-handle.hpp:118-122 | from any reachable state past the deadline, at most 48 answers are handled before a FinalBlockId arrives |
| FetchDeadline.DeadlineExactly | src/handles/write-handle.cpp:634-648 | over every run with the end unknown: status 405 iff a status check or accepted answer came more than ten seconds after the last check before it, a deletion is scheduled iff an accepted answer came after that, and each accepted answer before it had one more block requested |
| FetchProperties.WindowStaysFull | src/handles/write-handle.cpp:301-343 | over every run: while ids are left to request and no deletion is scheduled, twelve are outstanding less the rejected ones |
| FetchProperties.CommandHandlesBoundedAnswers | src/handles/write-handle.cpp:137-138 | a process for n blocks handles at most 4n answers, over every run |
| SegmentedWriteHandle.ProcessIsAccountedFor | src/handles/write-handle.cpp:353-356 | for any history: outstanding + credit + rejected = initial window <= 12, with no credit left and twelve in all while ids are left to request; credit is not negative, outstanding ids are keys of retryCounts, first requests gapless, at most four transmissions, status 200, 300 or 405 |
| SegmentedWriteHandle.CompleteMeansStored | src/handles/write-handle.cpp:269-274 | the process reports 200 for its commanded end iff the storage was handed exactly that range, each block once |
| SegmentedWriteHandle.WriteHandle.OnSegmentData | src/handles/write-handle.cpp:238-244 | an answer extends the trace of its process by that one event; all processes stay in step |
| SegmentedWriteHandle.WriteHandle.OnSegmentTimeout | src/handles/write-handle.cpp:284-290 | a timeout extends the trace of its process by that one event; all processes stay in step |
| LongestPrefixes.CoverageExact | src/storage/storage-engine.cpp:123-128 | a stored name is covered by a returned prefix iff it is not empty and the walk does not pass over it |
| LongestPrefixes.ChainEndIsMaximalCommonPrefix | src/storage/storage-engine.cpp:114-133 | every stored name with its first component is comparable with a returned prefix, which is itself stored with nothing below it or has two names diverging below it |
| KeyTrie.NameTrie.GetLongestPrefixes | src/storage/storage-engine.cpp:114-133 | returns every chain end exactly once and nothing else |
| Storage.StorageEngine.Read | src/storage/storage-engine.cpp:321-370 | a read agrees with a filter over the whole store: the answer is a match that no other match follows at the first differing character, or nothing iff there is no match; it extends the interest iff an extension wins; absent stragglers it finds something iff a stored name extends the interest |
| Storage.StorageEngine.PassCheck | src/storage/storage-engine.cpp:341-355 | the check on one key decides as the limits say, one met limit being enough |
| Storage.AnswerExtendsExactly | src/storage/storage-engine.cpp:337-358 | the answer of a prefix read extends the interest iff the store holds a matching extension that no matching straggler sorts after |
| RepoRuns.StoredNamesAreServed | src/repo/fast-repo.cpp:220-252 | over every run after startup, each stored name lies under a served prefix, unless it was there at startup and the scan passed over it |
| RepoRuns.ServedInRun | src/repo/fast-repo.cpp:238-252 | over every run and for every name: it is served iff it was at the start, or some event announced a prefix of it (a single insert its stored name or, failing, the empty one; a starting pattern its prefix) |
| Repository.Repository.StoredNamesAreListenedFor | src/repo/fast-repo.cpp:220-252 | for the objects, whatever their history since startup: each stored name lies under a prefix listened on, with the one exception of the scan |
| PatternTable.StartsAndStopsAlternate | src/handles/pattern-handle.cpp:120-191 | over every command sequence, replies 100 and 101 for a prefix alternate starting with 100, and it is active iff the last was 100 |
| CounterFetch.LossStopsShort | src/handles/patterns/counter-pattern.cpp:33-57 | over every interleaving: an uncancelled pattern that has come to rest has all ten answers iff no interest was lost; after a loss it rests short of them and still counts as running |
| CounterFetch.CancelStops | src/handles/patterns/counter-pattern.hpp:50-54 | whatever a pattern is doing and whatever happens next: after a cancel it is not running, asks for nothing more, and stores at most the one answer it was waiting for |
| FetchOutcomes.OnlySingleBlocksAreSafe | src/handles/write-handle.cpp:257-265 | over all its runs, a command, with or without an end, never sees a false 200 iff it is for a given single block |
| FetchOutcomes.CompleteTooEarly | src/handles/write-handle.cpp:257-265 | for every other command, one answer after which status 200 is reported with the remaining block missing |
| FetchOutcomes.DroppedForANeedlessBlock | src/handles/write-handle.cpp:465-471 | a run in which four timeouts of a block beyond the lowered end drop the process while a block of its range is outstanding |
| FetchOutcomes.StuckForGood | src/handles/write-handle.cpp:232-236 | whatever happens, a live process that waits for nothing and has no deletion scheduled stays as it is, up to its clock and what status checks do to an unknown end |
| FetchOutcomes.NeverTerminated | src/handles/write-handle.hpp:118-122 | a run to status 405 with nothing outstanding, no deletion scheduled and the process in the table |
| FetchOutcomes.StalledByOneRejection | src/handles/write-handle.cpp:232-236 | a run that stalls a process for one block by rejecting it |
| FetchOutcomes.StalledByOneRefusal | src/handles/write-handle.cpp:270-274 | a run that stalls a process for one block by a refused write, with nothing rejected and nothing missing |
| FetchOutcomes.OneBlockLearnsItsEnd | src/handles/write-handle.cpp:379-389 | such a run: data of one block, complete with the other eleven requests of the window open |
| FetchProperties.CompleteWithoutOvershoot | src/handles/write-handle.cpp:379-389 | with nothing inserted above the end, status 200 iff the inserted ids are exactly the range |
| FetchProperties.EndOnlyComesDown | src/handles/write-handle.cpp:254-267 | a known end never increases in any run, and nothing above it is freshly requested |
| FetchProperties.TruthfulEnd | src/handles/write-handle.cpp:254-267 | a producer that names one last block can only leave the end as it was or set it to that block |
| FetchProperties.TruthfulRunComplete | src/handles/write-handle.cpp:254-267 | a producer whose data end where it says: status 200 iff everything up to the end was inserted, whether the end was given, lowered or learned |
| FetchProperties.FlowControl | src/handles/write-handle.cpp:301-343 | over every run: at most 12 in flight, each id requested at most four times, first requests are start, start + 1, ... without a gap |
| FetchProperties.WindowOpens | src/handles/write-handle.cpp:312-343 | a fresh process has the ids from the start on outstanding, twelve unless the end comes first, each sent once in order |
| FetchProperties.AnswersUseUpTheMeasure | src/handles/write-handle.cpp:465-482 | with the end known, each data, rejection or timeout strictly decreases the transmissions still owed |
| FetchProperties.DataCost | src/handles/write-handle.cpp:412-444 | an accepted segment and the request it triggers cost strictly less than what was owed, also when the end comes down |
| FetchProperties.AnswersAreBounded | src/handles/write-handle.cpp:412-444 | the answers of any run are bounded by the measure it starts with |
| FetchProperties.NoStall | src/handles/write-handle.cpp:379-445 | without rejections some block of the known range stays outstanding until all of it is received, over every run |
| FetchProperties.AnsweredMeansComplete | src/handles/write-handle.cpp:379-389 | with nothing rejected or refused, a live process with no block of its known range outstanding has status 200 |
| FetchProperties.BusyUntilTheEndIsKnown | src/handles/write-handle.cpp:361-376 | while the end is unknown the whole window is in use or a deletion is scheduled |
| FetchProperties.SettledMeansComplete | src/handles/write-handle.cpp:379-389 | a live process waiting for nothing has status 200 iff no more answers were rejected or refused than ids beyond the end were requested; with none beyond the end, iff nothing was rejected or refused |
| FetchProperties.CompleteExactly | src/handles/write-handle.cpp:379-389 | a live process with a known end has status 200 iff no more answers are lost or outstanding than ids beyond the end were requested |
| FetchProperties.LateUntilEndIsNamed | src/handles/write-handle.cpp:634-648 | past the deadline, no status check extends it and nothing fresh is requested until a FinalBlockId arrives |
| FetchProperties.LateAnswersAreOwed | src/handles/write-handle.cpp:361-376 | past the deadline, the answers handled before a FinalBlockId arrives and what is still owed after them stay within what was owed before |
| FetchDeadline.CheckRenews | src/handles/write-handle.cpp:644-646 | a status check in time gives ten more seconds: an answer within them has the next block requested, one after them brings 405 and the deletion |
| FetchDeadline.KnownEndKeepsStatus | src/handles/write-handle.cpp:361-389 | once the end is known the status changes to 200 or not at all, and nothing but 200 schedules a deletion |
| FetchSession.BeginInv | src/handles/write-handle.cpp:301-343 | a fresh process satisfies the protocol invariant: partition of the requested ids, window, exact request log, status |
| FetchSession.AcceptCore | src/handles/write-handle.cpp:246-275 | accepting a segment frees exactly one place of the window and keeps every requested id in exactly one of outstanding, received, rejected |
| FetchSession.AdvanceCore | src/handles/write-handle.cpp:345-445 | finishing, giving up or requesting the next id restores the invariant |
| FetchSession.RejectCore | src/handles/write-handle.cpp:232-236 | a rejected answer keeps the invariant and its place in the window is lost: one fewer outstanding, one more rejected |
| FetchSession.TimeoutCore | src/handles/write-handle.cpp:447-484 | a resend or a drop after the last retry keeps the invariant |
| FetchSession.GoneCore | src/handles/write-handle.cpp:248-250 | late answers to a process that left the table keep the invariant and change nothing but what is outstanding and the clock |
| FetchSession.StepLogged | src/handles/write-handle.cpp:412-440 | every step keeps first requests gapless and the number of transmissions of an id equal to one more than its retry count |
| FetchSession.StepInv | src/handles/write-handle.hpp:103-123 | whatever one event does, it keeps the whole invariant |
| FetchSession.RunInv | src/handles/write-handle.hpp:103-123 | the invariant holds in every session that any run of answers, timeouts, checks and deletions reaches |
| SegmentedWriteHandle.OthersStay | src/handles/write-handle.cpp:345-351 | whatever is true of every process stays true of all others when a callback touches one |
| SegmentedWriteHandle.BeginSimulated | src/handles/write-handle.cpp:301-343 | the counters, queue, retry map and interests that segInit leaves are those of a fresh session |
| SegmentedWriteHandle.AcceptSimulated | src/handles/write-handle.cpp:246-275 | learning the end, storing and counting a segment match the session's accepting step with one credit to return |
| SegmentedWriteHandle.ControlSimulated | src/handles/write-handle.cpp:353-444 | what the control step makes of the fields is what Advance makes of the session: late, complete, drained or the next block sent |
| SegmentedWriteHandle.ControlOutcome | src/handles/write-handle.cpp:353-444 | the control step in numbers: 405 past the deadline, 200 on a full count, otherwise the queued block unless it lies beyond the end; what happens to credit, queue, retry counts, interests and the deletion in each case |
| SegmentedWriteHandle.DataFollows | src/handles/write-handle.cpp:246-275 | storing and counting a segment and the control step after it follow the data step of the process's trace |
| SegmentedWriteHandle.RetrySimulated | src/handles/write-handle.cpp:472-482 | one more retry of a block on the fields matches the session's |
| SegmentedWriteHandle.TimeoutSimulated | src/handles/write-handle.cpp:465-482 | a timeout on the fields, resend or drop, matches the session's |
| SegmentedWriteHandle.WriteHandle.SegInit | src/handles/write-handle.cpp:301-343 | leaves the process in step with the trace that has just begun: status 300, credit spent, exactly the ids from the start on outstanding, twelve unless the end comes first, and the next id queued |
| SegmentedWriteHandle.WriteHandle.ProcessSegmentedInsertCommand | src/handles/write-handle.cpp:583-632 | 403 and no change for an empty range; otherwise 100, one new process with its window open, all others untouched |
| SegmentedWriteHandle.WriteHandle.OnSegmentDataValidated | src/handles/write-handle.cpp:246-275 | the process follows its trace through the data event, and no other is touched |
| SegmentedWriteHandle.WriteHandle.RefreshEnd | src/handles/write-handle.cpp:254-267 | a FinalBlockId sets an unknown end and only lowers a known one |
| SegmentedWriteHandle.WriteHandle.OnDataValidationFailed | src/handles/write-handle.cpp:232-236 | the process follows its trace through the rejection: nothing but the outstanding interest changes, so its credit is lost |
| SegmentedWriteHandle.WriteHandle.OnSegmentDataControl | src/handles/write-handle.cpp:345-445 | returns one credit and finishes, gives up or sends the queued block, so that a process which showed a session before shows its Advance; the exits for exhausted credit and for a known retry count are unreachable, and the assertion on retryCounts holds |
| SegmentedWriteHandle.WriteHandle.OnSegmentTimeoutControl | src/handles/write-handle.cpp:447-484 | the process follows its trace through the timeout: resent up to the retry limit, then dropped; the assertion on retryCounts holds |
| SegmentedWriteHandle.WriteHandle.OnCheckValidated | src/handles/write-handle.cpp:495-539 | 404 for no process; otherwise the process's counters, after an unknown end was found late (405) or had its deadline set ten seconds ahead |
| SegmentedWriteHandle.WriteHandle.CheckEnd | src/handles/write-handle.cpp:530-534 | the process follows its trace through the status check: a known end changes nothing, an unknown one is late (405) or has its deadline set ten seconds ahead |
| SegmentedWriteHandle.WriteHandle.DeleteProcess | src/handles/write-handle.cpp:155-159 | removes exactly one process, whose trace grows by the deletion |
| Names.ParseUri | src/storage/storage-engine.cpp:394-401 | splitting a key on "/" and skipping empty parts undoes the joining of the components |
| Names.SplitGluesBack | src/storage/storage-engine.cpp:96-101 | the pieces of any string, with slashes put back between them, are that string |
| Names.ParseWellFormed | src/storage/storage-engine.cpp:96-111 | whatever the string, its components are non-empty and free of "/" |
| Names.UriInjective | src/storage/storage-engine.cpp:281-294 | two names never share a key |
| Names.StringPrefix | src/storage/storage-engine.cpp:337-339 | a key starts with a name's URI iff its name extends that name or is a straggler such as /a/bc beside /a/b |
| KeyOrder.AtMostIsByteOrder | src/storage/storage-engine.cpp:337-339 | the key order is that of bytes: one key extends the other or has the smaller character where they first differ |
| KeyOrder.BlockIsContiguous | src/storage/storage-engine.cpp:337-339 | the strings that start with a prefix form one block of the byte order |
| KeyOrder.WithKeySorted | src/storage/storage-engine.cpp:280-293 | a put keeps the key order sorted and adds exactly its key |
| LongestPrefixes.OneChainEndPerFirst | src/storage/storage-engine.cpp:118-130 | the returned prefixes are exactly one for each first component of the stored names |
| LongestPrefixes.LongestPrefixesAntichain | src/storage/storage-engine.cpp:118-130 | no returned prefix extends another |
| LongestPrefixes.PrefixFreeIsCovered | src/storage/storage-engine.cpp:103-130 | in a prefix-free store every non-empty name is covered |
| LongestPrefixes.ShorterNameUncovered | src/storage/storage-engine.cpp:88-91 | /a beside /a/b is not covered |
| KeyTrie.TrailIsPaths | src/storage/storage-engine.cpp:103-110 | the nodes passed by the non-empty pieces of a key are exactly the prefixes the key adds to the trie |
| KeyTrie.ShapeGrows | src/storage/storage-engine.cpp:107-109 | linking one new node keeps the trie a tree whose maps list exactly the one-component extensions |
| KeyTrie.NameTrie.Insert | src/storage/storage-engine.cpp:96-111 | the root-to-node paths are the prefixes of the names inserted, as a set: order and repetition do not matter |
| KeyTrie.NameTrie.InsertComponents | src/storage/storage-engine.cpp:103-110 | the loop adds the nodes of its pieces and no others |
| KeyTrie.NameTrie.Pass | src/storage/storage-engine.cpp:103-110 | one turn of the loop: an empty piece is skipped, any other is followed or its node created |
| KeyTrie.NameTrie.WalkChain | src/storage/storage-engine.cpp:120-129 | the walk stops at the chain end below the given child |
| Storage.MatchMeaning | src/storage/storage-engine.cpp:337-358 | which names a prefix read may return, in components; the suffix count is never negative |
| Storage.PrefixReadByComponents | src/storage/storage-engine.cpp:332-365 | without stragglers an unrestricted read finds something iff a stored name extends the interest, and what it finds extends it |
| Storage.ComponentsDecide | src/storage/storage-engine.cpp:332-365 | the same for the packet a read returns |
| Storage.StragglerWins | src/storage/storage-engine.cpp:337-358 | /a/bc answers /a/b |
| Storage.LimitsEnforcedUnlessBoth | src/storage/storage-engine.cpp:341-355 | the check enforces the limits iff not both are set |
| Storage.BothLimitsAcceptAll | src/storage/storage-engine.cpp:347-352 | with both set it accepts everything iff there is no gap between them |
| Storage.BothLimitsMissed | src/storage/storage-engine.cpp:347-352 | with both limits at one component, /a/b/c answers /a |
| Storage.BlockIsScanned | src/storage/storage-engine.cpp:337-339 | no key outside the scanned stretch starts with the prefix |
| Storage.LastMatchIsGreatest | src/storage/storage-engine.cpp:337-358 | the last match scanned is the greatest match among all keys of the store |
| Storage.GreatestInBytes | src/storage/storage-engine.cpp:337-358 | no other match has the greater character where it first differs from the greatest |
| Storage.NothingInBlock | src/storage/storage-engine.cpp:337-361 | no match scanned means no match in the store |
| Storage.StorageEngine.Put | src/storage/storage-engine.cpp:258-298 | adds the packet under its own or its renamed name and returns that name; a failed write changes nothing and returns the empty name |
| Storage.StorageEngine.Get | src/storage/storage-engine.cpp:300-319 | returns a packet iff one is stored under that very name |
| Storage.StorageEngine.Scan | src/storage/storage-engine.cpp:337-358 | the overwriting iterator loop finds the bytewise greatest match of the whole store, or nothing iff there is none |
| Storage.StorageEngine.BuildKeyTrie | src/storage/storage-engine.cpp:388-405 | every stored name enters the trie, and the keys are counted |
| Storage.StorageEngine.InsertKeys | src/storage/storage-engine.cpp:394-401 | the iterator loop inserts the components of every key |
| Storage.StorageEngine.ScanForLongestPrefixes | src/storage/storage-engine.cpp:372-386 | the scan reports the chain ends of the stored names |
| FastRepo.RegisterServes | src/repo/fast-repo.cpp:238-252 | an announced name is served, nothing served is lost, and announcing again changes nothing |
| FastRepo.RegisterIrredundant | src/repo/fast-repo.cpp:238-252 | no appended entry extends an earlier one |
| FastRepo.FastRepo.InitializeStorage | src/repo/fast-repo.cpp:220-236 | the chain ends of the store join the configured prefixes, and all are listened on once, in order |
| FastRepo.FastRepo.OnDataInsertion | src/repo/fast-repo.cpp:238-252 | registers the prefix unless an entry covers it, and listens on exactly what it appends |
| FastRepo.FastRepo.DataInserted | src/repo/fast-repo.cpp:211-212 | firing one slot per command prefix leaves the same prefixes as firing one |
| FastRepo.FastRepo.EnableListening | src/repo/fast-repo.cpp:182-214 | connects the slot once per command prefix |
| SingleInsert.WriteHandle.ProcessSingleInsertCommand | src/handles/write-handle.cpp:69-96 | reply 100, process in progress, one interest |
| SingleInsert.WriteHandle.OnDataValidated | src/handles/write-handle.cpp:112-131 | stores that packet and no other, under its stored name, announces it once and forgets the process; nothing for an unknown process |
| CounterFetch.RunInv | src/handles/patterns/counter-pattern.cpp:23-57 | over every interleaving at most ten interests are asked, one at a time |
| CounterFetch.CancelledStaysQuiet | src/handles/patterns/counter-pattern.hpp:50-54 | after a cancel nothing is asked and at most one more packet is stored |
| CounterFetch.PatternTerminates | src/handles/patterns/counter-pattern.cpp:44-57 | a pattern handles at most twenty callbacks, whatever their order |
| CounterFetch.FirstInterestLost | src/handles/patterns/counter-pattern.cpp:33-42 | a run that loses the first interest and rests with nothing fetched, still running |
| CounterFetch.RestsForGood | src/handles/patterns/counter-pattern.cpp:33-57 | nothing but a cancellation happens to a pattern at rest |
| CounterFetch.CounterPattern.Fetch | src/handles/patterns/counter-pattern.cpp:23-31 | one timer pending, nothing asked |
| CounterFetch.CounterPattern.DoFetch | src/handles/patterns/counter-pattern.cpp:33-42 | the timer step: asks for prefix/counter exactly if still running |
| CounterFetch.CounterPattern.OnData | src/handles/patterns/counter-pattern.cpp:44-57 | the data step, with that packet stored and no other key changed |
| CounterFetch.CounterPattern.ScheduleNext | src/handles/patterns/counter-pattern.cpp:50-56 | the next timer is set for the first nine answers, and the tenth ends the pattern |
| CounterFetch.CounterPattern.InterestLost | src/handles/patterns/counter-pattern.cpp:40-41 | a lost interest is only forgotten: no callback is registered for it |
| CounterFetch.CounterPattern.Cancel | src/handles/patterns/counter-pattern.hpp:50-54 | the pattern is not running any more, and nothing else changes |
| CounterFetch.CounterPattern.OneAtATime | src/handles/patterns/counter-pattern.cpp:23-57 | at most one timer or interest is pending, and the packets stored answer prefix/0, prefix/1, ... in order without a gap |
| CounterFetch.DigitIsDecimal | src/handles/patterns/counter-pattern.cpp:37 | the counter's component is its decimal digit, different for every round |
| PatternTable.TableSizeIsBalance | src/handles/pattern-handle.cpp:149-191 | the table size is the number of 100 replies less the number of 101 replies |
| PatternTable.RepliesExactly | src/handles/pattern-handle.cpp:101-191 | over every command sequence, the reply to the next: 403 if it does not decode, 402 for a fetch under way or the cancellation of none, 404 for an unknown pattern, otherwise 100 and 101 |
| PatternHandle.PatternHandle.OnInterest | src/handles/pattern-handle.cpp:93-156 | the reply and the table follow the command log; a started pattern is fetching and its stored name is announced |
| PatternHandle.PatternHandle.StartPattern | src/handles/pattern-handle.cpp:149-150 | a new pattern begins to fetch and enters the table under its prefix |
| PatternHandle.PatternHandle.OnCancelRequest | src/handles/pattern-handle.cpp:158-191 | the reply and the table follow the command log; the cancelled pattern and no other is stopped |
| PatternHandle.PatternHandle.RemovePattern | src/handles/pattern-handle.cpp:45-53 | stops and drops the pattern of a prefix, if any, and keeps the others |
| RepoRuns.StepCovering | src/repo/fast-repo.cpp:238-252 | every event keeps all newly stored names and all started patterns under served prefixes |
| RepoRuns.PrefixFreeRunsAreServed | src/repo/fast-repo.cpp:220-252 | starting from a prefix-free store, every stored name is served in every run |
| RepoRuns.ListenedOnceEach | src/repo/fast-repo.cpp:227-251 | the log of prefixes listened on equals dataPrefixes in every run, and no prefix announced later extends an earlier one |
| RepoRuns.AnnouncedOnce | src/repo/fast-repo.cpp:238-252 | every event keeps the log equal to dataPrefixes and appends no entry that extends an earlier one |
| RepoRuns.RootIsServedExactly | src/repo/fast-repo.cpp:238-252 | a step leaves the root served iff it was, or the step is a failed single insert or announces an empty name |
| RepoRuns.ServedExactly | src/repo/fast-repo.cpp:238-252 | a step leaves a name served iff it was, or the step announces a prefix of it |
| RepoRuns.FailedInsertServesTheRoot | src/handles/write-handle.cpp:122-126 | with all names non-empty, the step that brings the root in is a failed single insert and nothing else; then no prefix is registered any more |
| RepoRuns.RootServedForNothing | src/handles/write-handle.cpp:122-126 | an insert of /a whose write fails makes a fresh repository serve the root with nothing stored |
| RepoRuns.AnsweredOnce | src/handles/write-handle.cpp:98-119 | once a single insert was answered or timed out, later answers to it change nothing unless a new command takes its id |
| RepoRuns.CancelCommandStops | src/handles/pattern-handle.cpp:185-191 | over every run: a cancel command for an active prefix stops its pattern for good |
| Fetchers.Fetchers.OnInterest | src/handles/pattern-handle.cpp:120-155 | a fetch request adds one pattern at its beginning to those running and disturbs none |
| Fetchers.Fetchers.OnCancelRequest | src/handles/pattern-handle.cpp:174-191 | a cancel stops the pattern the table names and disturbs no other |
| Fetchers.Fetchers.DoFetch | src/handles/patterns/counter-pattern.cpp:33-42 | a timer of one pattern takes that pattern's step and disturbs no other |
| Fetchers.Fetchers.OnData | src/handles/patterns/counter-pattern.cpp:44-57 | data for one pattern takes that pattern's step, stores the packet and disturbs no other |
| Fetchers.Fetchers.InterestLost | src/handles/patterns/counter-pattern.cpp:40-41 | a loss stops one pattern and disturbs no other |
| Repository.Repository.Start | src/repo/fast-repo.cpp:220-236 | the wired objects begin a run at the startup state of their store |
| Repository.Repository.InsertCommand | src/handles/write-handle.cpp:69-96 | the objects take the run's insert-command step, and the commanded name is requested |
| Repository.Repository.InsertData | src/handles/write-handle.cpp:112-131 | the objects take the run's insert step; that packet is stored and no other key changes, or nothing for an unknown process |
| Repository.Repository.InsertTimeout | src/handles/write-handle.cpp:98-103 | the objects take the run's timeout step |
| Repository.Repository.PatternCommand | src/handles/pattern-handle.cpp:93-156 | the objects take the run's pattern-start step; the reply is 402, 404 or 100 |
| Repository.Repository.CancelCommand | src/handles/pattern-handle.cpp:158-191 | the objects take the run's cancel step; the reply is 101 or 402 |
| Repository.Repository.PatternTimer | src/handles/patterns/counter-pattern.cpp:33-42 | the objects take the run's timer step |
| Repository.Repository.PatternData | src/handles/patterns/counter-pattern.cpp:44-57 | the objects take the run's data step; that packet is stored and no other key changes |
| Repository.Repository.PatternLost | src/handles/patterns/counter-pattern.cpp:40-41 | the objects take the run's loss step |

## Left out

- Face, KeyChain, protobuf and TLV coding, signatures, logging and command-line parsing: library calls. Interests expressed, prefixes listened on and packets handed to the storage are recorded in logs instead.
- RocksDB internals: the database is a map with a sorted key sequence, and whether a write succeeds is the environment's choice. A failed read of a present key is not modelled.
- Percent-escaping inside names: a component is its escaped form, a non-empty string without "/".
- Validators: acceptance is the environment's choice.
- uint64 wrap-around of block ids: ids are unbounded, start <= end is the command's own check, and a FinalBlockId below the first block is excluded because the unsigned subtraction of `src/handles/write-handle.cpp:381` would wrap on it.
- Random process ids: a new process gets an id that no earlier process had. Collisions in the code's generator are not modelled.
- The reply 402 for commands that carry selectors, interest lifetimes, and the delay of a scheduled deletion, which may come at any later time here.
- Announcing the inserted name in the segmented handle, which only the live single insert does in this revision.
- `stats_.valueSizeBytes_`, which sums the sizes of encoded values.
- The startup scan is the first event of a run. The code posts it to the I/O loop, and commands that arrive before it are not modelled.
- A data packet's name extends the name of the interest it answers, which is assumed of the network for counter patterns.
- Timers of counter patterns fire at any time after they were set; their delays are not modelled.
- `removePattern` is not called by any handler and so is not an event of a run.
- Object lifetime of callbacks bound to a cancelled pattern: objects stay alive.
- Watch and delete handles, the NDN-RTC and generalized-object patterns, the status handle and the JSON reports: they would add only easy members, or wrap libraries.
- The read handle beyond the store's read: it forwards the packet found.
