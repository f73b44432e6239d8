# Runahead out-of-order CPU: a verified model

This project models the core of a cycle-level out-of-order CPU (gem5's O3 model) extended with runahead execution:
when the oldest load misses for long, the CPU saves its registers, runs on speculatively with the load's result
poisoned, pseudoretires what it runs, and later throws all of it away.

Five parts are modelled, each as a state machine over unbounded runs, with the source's loops and containers as class
methods proved against the transitions of that machine:

1. **Load/store queue** (`Coverage`, `Memory`, `Lsq*`, `SplitRequest`). Loads run past older stores, forward from the
   store queue and are squashed on violations. Committed loads agree with in-order memory; runahead stores never reach
   the D-cache or a normal load, and no retired normal store is lost; split accesses mean the same as whole ones.
2. **Issue** (`Iq*`, `DepGraph`, `InstQueue`, `FuPool*`, `IssueOrder`, `IssueQueue`). Waiting lists over heap nodes,
   squash of the dependency graph, wake-up and entry accounting, freedom from deadlock, functional units, the
   age-ordered ready index and the scheduling loop.
3. **Runahead entry, execution and restore** (`ArchState`, `RunaheadArch`, `RegisterUnit`, `Poison`). A period is
   architecturally a stutter, and poison is sound as non-interference.
4. **Redirects and exit policies** (`Redirect`, `CommitSquash`, `ExitPolicy`). The oldest squash wins, exits meet a
   deadline, periods do not overlap.
5. **Fetch-decode back-pressure** (`FetchDecode`, `DecodeUnit`). A block/unblock protocol over one-cycle wires with a
   bounded skid buffer.

One thread is modelled. What the rest of the CPU does (reorder buffer, rename, memory, branch prediction, translation)
enters as arbitrary event arguments restricted by guards: sequence numbers grow and are not reused, the reorder buffer
retires in order and only what is finished and reported, rename takes destinations from the free list and frees a
register only when a younger overwriter commits, and the D-cache serves a load at any time after it took the packet, from
what it holds then. In the load/store queue one guard rests on another part: issue/execute reports to commit when a cycle
is over, and then a violator still recorded lies above a squash on its way, which is `Redirect.LeftIsAlwaysRemoved`.

In each module `Guard` or `MayInsert` says when an event can happen, `Next` what it does, `Inv` what every event keeps,
and `Possible`/`Reached` (or `Enabled`/`After`) range over whole runs. Classes hold the source's fields; `View()` is the
value the transitions speak about.

## Where the code falls short

Five properties hold only under a condition, which is proved to be the exact one:

- When the store ports of a cycle run out, the write-back loop moves past the next committed normal store without sending
  it, and the store is lost (`LsqPorts.SkippedStoreIsLost`). An attempt keeps the queue in step with memory if and only if
  it does not do that (`LsqPorts.TryKeepsCoreIff`); as many ports as committed normal stores waiting are enough
  (`LsqUnit.LSQUnit.WritebackStores`), so the default, more ports than store queue entries, is safe. The events of
  `LsqWorld` are the other attempts.
- Dispatch and squash test different flag combinations to decide whether an instruction sits on waiting lists.
  `IqRuns.FlagsThatDisagree` lists exactly the flag sets that differ; runs without them are safe (`IqRuns.SquashIsSafe`)
  and every such set breaks an assert in a concrete run (`IqRuns.LeftBehind`, `IqRuns.NeverThere`).
- The functional-unit scan stops when it meets its first unit again. A description that lists an operation twice can
  hide a free unit (`FuPoolRuns.RepeatedUnitHidesFreeOne`); over all runs of a configuration refusals are exact if and
  only if the scan covers the queue from every position (`FuPoolRuns.RefusalExactIff`).
- The skid buffer is sized by the fetch width but filled at the decode width: `FetchDecode.SkidFitsExactly`.
- A mispredicted control transfer on which an ordering violation is recorded leaves the violation for the next
  instruction, which may not be a memory access although an assert says so (`Redirect.AssertCanFail`; exactly when, for
  any cycle: `Redirect.AssertsHoldIff`). One instruction has to be both: the next-address test skips loads that have not
  executed, and fetch gives everything but control transfers its own next address as the prediction (fetch.cc:544-549),
  so it is a store that is itself a control transfer, as an instruction set may have where calls that push their return
  address are not split. What it leaves behind is harmless otherwise: it lies above a squash that is still on its way, so
  the request it raises in a later cycle removes nothing more (`Redirect.LeftIsAlwaysRemoved`, `Redirect.EveryCycleCovers`).

Commit's copy of the cause of runahead is refreshed only by a signal or a fetch page fault, so a deadline armed in one
period can end the next. `ExitPolicy.NoStaleDeadline` and `ExitPolicy.StaleDeadlineEndsPeriod` say exactly which
periods are exposed, and `ExitPolicy.StaleDeadlineHappens` shows a family of them, cycle by cycle.

## Model

| member | source | states |
|---|---|---|
| `Coverage.CoverageIsExact` | gem5-extensions/src/cpu/runahead/lsq_unit.cc:1259-1312 | the four comparisons classify a load against a store exactly: full iff every byte of the load is a byte of the store (and the kind of access allows it), none iff no byte is shared, partial otherwise |
| `Coverage.SharedByteIsCaught` | gem5-extensions/src/cpu/runahead/lsq_unit.cc:676-750 | the shifted dependence check never misses two accesses that share a byte, for any shift |
| `Coverage.UnshiftedCheckIsExact` | gem5-extensions/src/cpu/runahead/lsq_unit.cc:676-750 | with no shift the check fires only when a byte is shared |
| `Coverage.BlockIsAligned` | gem5-extensions/src/cpu/runahead/lsq_unit.cc:679-680 | a block is the aligned stretch of 2^depCheckShift bytes around an address |
| `Coverage.BlocksOverlapIff` | gem5-extensions/src/cpu/runahead/lsq_unit.cc:694-698 | for every shift, the dependence check fires exactly when some block holds a byte of each access |
| `LsqProof.ScanIsOverlay` | gem5-extensions/src/cpu/runahead/lsq_unit.cc:1695-1859 | the youngest-first search of the store queue, when it forwards or misses, gives memory overlaid by all older executed normal stores in program order |
| `LsqSearch.SearchExact` | gem5-extensions/src/cpu/runahead/lsq_unit.cc:1695-1859 | for normal and runahead loads, in bytes: the search answers with the youngest store the load may see that shares a byte with it, forwarding that store's bytes iff it holds all of the load's, stalling on it iff it holds only some, and missing iff there is no such store; no other answer fits |
| `LsqSearch.ExecLoadOutcome` | gem5-extensions/src/cpu/runahead/lsq_unit.cc:1626-1892 | an executed load takes its bytes from the youngest older unsent store that hits it, or gives its address and request up and stalls on that store unless an older load stalls, or goes to the cache when no store hits it |
| `LsqSearch.CheckOutcome` | gem5-extensions/src/cpu/runahead/lsq_unit.cc:676-750 | an executed store accuses exactly the oldest load queued behind it that has an address in a block it touches, unless an older load is accused already, and faults exactly if it accuses one |
| `LsqRefine.LoadReadsPrior` | gem5-extensions/src/cpu/runahead/lsq_unit.cc:1626-1892 | what a normal load finds when it executes is the in-order memory just before it: the bytes it forwards, or, when it misses, the bytes the D-cache holds at that moment |
| `LsqFlight.MissIsApart` | gem5-extensions/src/cpu/runahead/lsq_unit.cc:1695-1859 | a search that misses shares no byte with any store it may see |
| `LsqFlight.RunStoreFlight` | gem5-extensions/src/cpu/runahead/lsq_unit.cc:824-884 | a store that executes while normal loads wait for the D-cache dooms those it shares a byte with and is apart from the others |
| `LsqFlight.ServeIsRight` | gem5-extensions/src/cpu/runahead/lsq_unit.cc:167-285 | a normal load that is served, at whatever time, gets its in-order bytes or is about to be thrown away |
| `LsqCover.RetireAllowed` | gem5-extensions/src/cpu/runahead/commit.cc:1106-1165 | commit retires in order what is finished and has been reported to it, so it never passes a recorded violator or a pending redirect |
| `LsqCover.RunStoreCover` | gem5-extensions/src/cpu/runahead/iew.cc:1323-1347 | the store that finds a violation is older than the load it accuses and has not been reported to commit yet |
| `LsqSafety.FirstConflictIsOldest` | gem5-extensions/src/cpu/runahead/lsq_unit.cc:676-750 | the recorded violator is no younger than any load that conflicts with the store |
| `LsqSafety.ConflictDooms` | gem5-extensions/src/cpu/runahead/lsq_unit.cc:824-884 | a younger load whose address conflicts with an executing store ends at or above the recorded violator |
| `LsqSafety.DisjointStoreInvisible` | gem5-extensions/src/cpu/runahead/lsq_unit.cc:824-884 | a late store that shares no byte with an executed load changes nothing the load read |
| `LsqSafety.RunStoreLoads` | gem5-extensions/src/cpu/runahead/lsq_unit.cc:824-884 | executing a store out of order leaves every executed load correct or doomed |
| `LsqSafety.CommitLog` | gem5-extensions/src/cpu/runahead/lsq_unit.cc:912-947 | loads that leave at commit returned what the stores committed before them had written |
| `LsqRetire.SquashLoadsExact` | gem5-extensions/src/cpu/runahead/lsq_unit.cc:1106-1147 | squash removes exactly the loads younger than the squash point and keeps the others in place |
| `LsqRetire.SquashStoresExact` | gem5-extensions/src/cpu/runahead/lsq_unit.cc:1187-1219 | squash removes exactly the uncommitted stores younger than the squash point and keeps the others in place |
| `LsqRuns.WritebackKeeps` | gem5-extensions/src/cpu/runahead/lsq_unit.cc:959-1104 | one write-back attempt keeps the queue invariant, every load correct and the D-cache equal to the stores sent so far |
| `LsqTheorems.StepKeepsInv` | gem5-extensions/src/cpu/runahead/lsq_unit.cc:446-1548 | every operation, in any interleaving, with loads in flight to the D-cache while stores execute, drain and are squashed, keeps the ordering, forwarding, violation, stall, counting, request and memory invariants |
| `LsqTheorems.RunKeepsInv` | gem5-extensions/src/cpu/runahead/lsq_unit.cc:446-1548 | so does every run |
| `LsqResults.LoadsAgreeWithInOrderMemory` | gem5-extensions/src/cpu/runahead/lsq_unit.cc:1626-1892 | in every reachable state an executed normal load holds the bytes of initial memory overlaid by all older executed normal stores in program order, or is at or younger than a recorded violator or redirect |
| `LsqResults.CommittedLoadsAreInOrder` | gem5-extensions/src/cpu/runahead/lsq_unit.cc:887-921 | every normal load that ever commits returned what an in-order machine returns: a run of the out-of-order queue refines in-order memory |
| `LsqResults.ServedAtAnyTime` | gem5-extensions/src/cpu/runahead/lsq_unit.cc:167-285 | in every reachable state the D-cache holds the in-order bytes of every normal load it has accepted and not served yet, unless the load will be thrown away |
| `LsqResults.DcacheIsCommittedPrefix` | gem5-extensions/src/cpu/runahead/lsq_unit.cc:1228-1257 | in every reachable state the D-cache is initial memory after a prefix of the committed normal stores |
| `LsqResults.HistoryStaysOrdered` | gem5-extensions/src/cpu/runahead/lsq_unit.cc:923-947 | the committed normal stores are listed in program order |
| `LsqResults.StoresToWritebackExact` | gem5-extensions/src/cpu/runahead/lsq_unit.cc:923-947 | in every reachable state storesToWB counts exactly the committed, uncompleted stores, and committed stores form a prefix of the queue |
| `LsqResults.WritebackDrains` | gem5-extensions/src/cpu/runahead/lsq_unit.cc:959-1104 | when write-back stops without being refused or held back by TSO, no committed store is left unsent |
| `LsqTso.TsoSendsOneAtATime` | gem5-extensions/src/cpu/runahead/lsq_unit.cc:967-971 | in every reachable state under total store order at most one store that was sent has not completed, the flag says whether there is one, and while there is one nothing is sent or retried |
| `LsqKept.RetiredStoreIsNeverLost` | gem5-extensions/src/cpu/runahead/cpu.cc:1714-1728 | over every run, with any runahead periods that end at their own load or after the older commits are reported, a normal store that has retired waits unchanged at its place in the queue until its commit is reported, and is in the commit history from then on |
| `LsqLogged.RetiredLoadIsLogged` | gem5-extensions/src/cpu/runahead/cpu.cc:1714-1728 | likewise for a normal load that has retired with a value: it waits unchanged until its commit is reported, and is among the committed loads with that value from then on |
| `LsqBlocked.RefusedStoreIsNext` | gem5-extensions/src/cpu/runahead/lsq_unit.cc:949-964 | once the D-cache has refused a store, over every run in which nothing is accepted, with commits, squashes and runahead in it, that store stays blocked at the write-back position, and the first accepted attempt sends exactly it |
| `LsqResults.SourceAssertsHold` | gem5-extensions/src/cpu/runahead/lsq_unit.cc:1695-1720 | in every reachable state a search never starts behind the write-back position and meets no completed store, a blocked store is a normal one, and every load waiting for replay is covered by a stall that will be lifted |
| `LsqResults.RequestFlagsAgree` | gem5-extensions/src/cpu/runahead/dyn_inst.hh:880-889 | in every reachable state the runahead flag of a memory request equals its instruction's, although they are set at different times, so the asserts at lsq.cc:225 and lsq_unit.cc:242 hold and a store is routed to the R-cache exactly when its instruction is a runahead one |
| `LsqResults.RunaheadStoresAreQuarantined` | gem5-extensions/src/cpu/runahead/cpu.cc:1714-1728 | a store that enters during runahead, or is in flight when runahead begins, is quarantined from then on |
| `LsqResults.RunaheadStoresNeverSent` | gem5-extensions/src/cpu/runahead/lsq_unit.cc:1472-1503 | over any run, no store that is a runahead one while it is queued has ever been sent to the D-cache, however late it was marked |
| `LsqResults.RunaheadResponsesAreRCache` | gem5-extensions/src/cpu/runahead/lsq_unit.cc:133-135 | so in every reachable state a response for a queued runahead store can only be the R-cache's: the assert in recvTimingResp holds |
| `LsqResults.QuarantineIsForever` | gem5-extensions/src/cpu/runahead/lsq_unit.cc:1461-1548 | over any run, in the period and after it, and with packets routed by the request's own flag, a quarantined store never commits to memory and is never among the stores the D-cache took |
| `LsqPorts.TryKeepsCoreIff` | gem5-extensions/src/cpu/runahead/lsq_unit.cc:976-980 | a write-back attempt keeps the queue in step with memory if and only if it does not find a normal store ready with no store port free |
| `LsqPorts.SkippedStoreIsLost` | gem5-extensions/src/cpu/runahead/lsq_unit.cc:976-980 | such a store is passed over: the D-cache never gets it and a younger load of the same byte reads the old one |
| `LsqMachine.LSQ.Handle` | gem5-extensions/src/cpu/runahead/lsq_unit.cc:446-1548 | every event handled by the object keeps its fields in step with the model, hence valid |
| `LsqMachine.LSQ.Run` | gem5-extensions/src/cpu/runahead/lsq_unit.cc:446-1548 | so does every run: the object ends in the state the theorems speak about |
| `LsqUnit.LSQUnit.InsertLoad` | gem5-extensions/src/cpu/runahead/lsq_unit.cc:446-504 | the new load will search exactly the stores that have not been sent, all of them older than it; the queue invariant holds |
| `LsqUnit.LSQUnit.InsertStore` | gem5-extensions/src/cpu/runahead/lsq_unit.cc:506-525 | no load that is queued already can be accused by the new store; the queue invariant holds |
| `LsqUnit.LSQUnit.GetMemDepViolator` | gem5-extensions/src/cpu/runahead/lsq_unit.cc:527-535 | what is handed out is a load that is still queued, it is handed out once, and the queue invariant holds |
| `LsqUnit.LSQUnit.PushLoadRequest` | gem5-extensions/src/cpu/runahead/lsq.cc:857-914 | an execution attempt creates the request of a load, or sets the flag of the one there is |
| `LsqUnit.LSQUnit.PushStoreRequest` | gem5-extensions/src/cpu/runahead/lsq.cc:857-914 | likewise for a store |
| `LsqUnit.LSQUnit.CheckViolations` | gem5-extensions/src/cpu/runahead/lsq_unit.cc:676-750 | the loop from the store's load position records the oldest load that shares a block with the store, unless an older violator is recorded, and returns a fault exactly then |
| `LsqUnit.LSQUnit.ExecuteStore` | gem5-extensions/src/cpu/runahead/lsq_unit.cc:824-884 | writing a store's data and checking younger loads is exactly the store transition; the fault is raised exactly if a load is accused |
| `LsqUnit.LSQUnit.SearchStores` | gem5-extensions/src/cpu/runahead/lsq_unit.cc:1695-1859 | the backward loop answers from the youngest visible store that shares a byte with the load: all of its bytes iff the store holds them, a stall on it iff it holds only some, a miss iff there is none |
| `LsqUnit.LSQUnit.Read` | gem5-extensions/src/cpu/runahead/lsq_unit.cc:1626-1892 | forward, stall or send to the cache: exactly the load transition, decided by the youngest older unsent store that shares a byte with the load |
| `LsqUnit.LSQUnit.CompleteDataAccess` | gem5-extensions/src/cpu/runahead/lsq_unit.cc:167-285 | a reply gives a normal load the D-cache's bytes at that moment: exactly the serving transition |
| `LsqUnit.LSQUnit.CommitLoads` | gem5-extensions/src/cpu/runahead/lsq_unit.cc:912-921 | the loop drops exactly the loads up to the committed instruction |
| `LsqUnit.LSQUnit.CommitStores` | gem5-extensions/src/cpu/runahead/lsq_unit.cc:923-947 | the loop marks exactly the stores up to the committed instruction and counts those newly marked |
| `LsqUnit.LSQUnit.SquashLoads` | gem5-extensions/src/cpu/runahead/lsq_unit.cc:1106-1147 | the tail loop cuts the younger loads and lifts the stall of a load that goes |
| `LsqUnit.LSQUnit.SquashStores` | gem5-extensions/src/cpu/runahead/lsq_unit.cc:1187-1219 | the tail loop cuts the younger uncommitted stores; its panic about a stalling store cannot fire |
| `LsqUnit.LSQUnit.Squash` | gem5-extensions/src/cpu/runahead/lsq_unit.cc:1106-1219 | both loops and the violator reset are the squash transition |
| `LsqUnit.LSQUnit.StorePostSend` | gem5-extensions/src/cpu/runahead/lsq_unit.cc:1228-1257 | hands the store to the D-cache or the R-cache by its request's flag, lifts a stall on it and advances |
| `LsqUnit.LSQUnit.CompleteStore` | gem5-extensions/src/cpu/runahead/lsq_unit.cc:1398-1459 | marks the store and pops every completed one at the head: the completion transition |
| `LsqUnit.LSQUnit.WritebackStore` | gem5-extensions/src/cpu/runahead/lsq_unit.cc:959-1104 | one turn of the loop is one write-back step |
| `LsqUnit.LSQUnit.WritebackStores` | gem5-extensions/src/cpu/runahead/lsq_unit.cc:949-1104 | the loop ends; unless a store is skipped it is a sequence of write-back steps that stops only when none is ready or one is refused; with a port for each committed normal store that waits, none is skipped |
| `LsqUnit.LSQUnit.SetRunahead` | gem5-extensions/src/cpu/runahead/cpu.cc:1714-1728 | marks exactly the queued instructions that have not left the reorder buffer, and their requests where there are any |
| `SplitRequest.CutsTile` | gem5-extensions/src/cpu/runahead/lsq.cc:1071-1138 | candidate fragments are contiguous and disjoint, cover the access, stay inside one line each, start at line boundaries except the first, and their byte-enable slices concatenate to the original |
| `SplitRequest.SplitExactlyWhenNeeded` | gem5-extensions/src/cpu/runahead/lsq.cc:865-880 | an access is cut in several pieces exactly when it reaches past the line it starts in, the test that selects a split request |
| `SplitRequest.LoopEndsExactly` | gem5-extensions/src/cpu/runahead/lsq.cc:1074-1110 | the whole-line loop can reach its end iff the access touches the end of its first line; a line-crossing access always does |
| `SplitRequest.KeptEnablesExactly` | gem5-extensions/src/cpu/runahead/lsq.cc:1192-1221 | dropping fragments without an enabled byte loses none: a byte is enabled in a kept fragment iff the access enables it |
| `SplitRequest.BuiltPacketsFit` | gem5-extensions/src/cpu/runahead/lsq.cc:1393-1457 | without faults there is one packet for each kept fragment, carrying its own slice at its own offset |
| `SplitRequest.SplitStoreIsStore` | gem5-extensions/src/cpu/runahead/lsq.cc:1393-1457 | the packets of a split store, in any order, leave the same memory as the whole masked store |
| `SplitRequest.SplitLoadIsLoad` | gem5-extensions/src/cpu/runahead/lsq.cc:1393-1457 | the replies of a split load, in any order, put every enabled byte of memory at its place in the buffer |
| `SplitRequest.SplitDataRequest.AddReq` | gem5-extensions/src/cpu/runahead/lsq.cc:1192-1221 | a fragment is added iff some byte of it is enabled |
| `SplitRequest.SplitDataRequest.InitiateTranslation` | gem5-extensions/src/cpu/runahead/lsq.cc:1071-1138 | prefix, whole-line loop and tail produce exactly the kept cuts, and the loop ends |
| `SplitRequest.SplitDataRequest.BuildPackets` | gem5-extensions/src/cpu/runahead/lsq.cc:1393-1457 | packets are built once, for the fragments before the first fault, each with the slice at addr minus base |
| `IqProof.InsertKeepsInv` | gem5-extensions/src/cpu/runahead/inst_queue.cc:562-651 | insertion keeps node counts, ownership, ages, scoreboard and entry accounting |
| `IqProof.LookedUpCountsBits` | gem5-extensions/src/cpu/runahead/inst_queue.cc:1355-1400 | an instruction is queued with as many ready sources counted as it has ready bits, those that became ready since rename included |
| `IqProof.RecordKeepsInv` | gem5-extensions/src/cpu/runahead/inst_queue.hh:214-218 | recording a nop as the producer of its destinations keeps the invariants |
| `IqProof.NewProducerFindsEmptyLists` | gem5-extensions/src/cpu/runahead/inst_queue.cc:1402-1439 | the panic in addToProducers cannot fire: no register a new instruction writes has waiting consumers |
| `IqSteps.IssueKeepsInv` | gem5-extensions/src/cpu/runahead/inst_queue.cc:904-912 | issue keeps the invariant; a non-memory instruction releases its entry |
| `IqSteps.WakeKeepsInv` | gem5-extensions/src/cpu/runahead/inst_queue.cc:982-1081 | waking dependents keeps the invariant: one source per node, lists emptied, a memory instruction releases its entry |
| `IqSteps.CommitKeepsInv` | gem5-extensions/src/cpu/runahead/inst_queue.cc:964-980 | dropping committed instructions keeps the invariant |
| `IqSteps.CommitLeavesYounger` | gem5-extensions/src/cpu/runahead/inst_queue.cc:964-980 | of a list in program order, commit leaves exactly the instructions younger than the committed one |
| `IqSquash.UnlinkFine` | gem5-extensions/src/cpu/runahead/inst_queue.cc:1243-1290 | taking a squashed instruction off its sources' lists never runs off a list |
| `IqSquash.YoungestHasNoConsumers` | gem5-extensions/src/cpu/runahead/inst_queue.cc:1323-1345 | when the youngest instruction is squashed, nobody waits for what it writes |
| `IqSquash.SquashWalkSafe` | gem5-extensions/src/cpu/runahead/inst_queue.cc:1204-1346 | the youngest-first walk to any point trips no assert, removes exactly the younger instructions and their nodes, and returns their entries |
| `IqSquash.SquashedToMeans` | gem5-extensions/src/cpu/runahead/inst_queue.cc:1204-1346 | what a squash leaves, member by member: an instruction or a waiting node stays exactly if its sequence number is at most the squash point |
| `IqRuns.StepKeepsInv` | gem5-extensions/src/cpu/runahead/inst_queue.cc:562-1346 | every operation keeps the invariant |
| `IqRuns.RunKeepsInv` | gem5-extensions/src/cpu/runahead/inst_queue.cc:562-1346 | so does every run |
| `IqRuns.SquashIsSafe` | gem5-extensions/src/cpu/runahead/inst_queue.cc:1204-1346 | in every reachable state a squash to any point trips no assert, leaves exactly the instructions and nodes up to that point and frees the others' entries |
| `IqRuns.ConsumersWaitBehindProducer` | gem5-extensions/src/cpu/runahead/inst_queue.cc:1355-1439 | in every reachable state each consumer on a list is younger than the register's producer, and a non-empty list means the scoreboard bit is false |
| `IqRuns.IssuableIffOnNoList` | gem5-extensions/src/cpu/runahead/inst_queue.cc:982-1081 | in every reachable state readyRegs plus the node count over all lists is the number of sources, so an instruction can issue iff it is on no list |
| `IqRuns.EntriesReleasedOnce` | gem5-extensions/src/cpu/runahead/inst_queue.cc:904-912 | in every reachable state free entries and unreleased instructions add up to numEntries and match count |
| `IqProgress.OldestHasSources` | gem5-extensions/src/cpu/runahead/inst_queue.cc:982-1081 | the oldest instruction that has not written back waits for nobody: all its sources are ready |
| `IqProgress.OldestCanStep` | gem5-extensions/src/cpu/runahead/inst_queue.cc:752-962 | so it can always be issued, or written back if it is issued already |
| `IqProgress.QueueCanDrain` | gem5-extensions/src/cpu/runahead/inst_queue.cc:752-1081 | the waiting lists never deadlock: from every reachable state some run of issues, wake-ups and commits empties the queue and frees every entry |
| `IqRuns.FlagsThatDisagree` | gem5-extensions/src/cpu/runahead/inst_queue.cc:1243-1254 | exactly which instruction flags make dispatch and squash disagree about who is on lists |
| `IqRuns.LeftBehind` | gem5-extensions/src/cpu/runahead/inst_queue.cc:1243-1254 | for every flag set of the first family, a concrete run ends in the assert that a squashed producer's list is empty |
| `IqRuns.NeverThere` | gem5-extensions/src/cpu/runahead/inst_queue.cc:1243-1290 | for every flag set of the second family, a concrete run walks off a list |
| `DepGraph.DepChain.Remove` | gem5-extensions/src/cpu/runahead/dep_graph.hh:207-243 | the pointer walk unlinks the first node holding the instruction; an empty list is left alone |
| `DepGraph.DepChain.Pop` | gem5-extensions/src/cpu/runahead/dep_graph.hh:245-260 | takes the newest node off the chain |
| `DepGraph.DependencyGraph.Insert` | gem5-extensions/src/cpu/runahead/dep_graph.hh:187-204 | pushes a consumer at the front of one list and leaves all others alone |
| `DepGraph.DependencyGraph.Remove` | gem5-extensions/src/cpu/runahead/dep_graph.hh:207-243 | the list loses exactly one node of the instruction, the counter one |
| `DepGraph.DependencyGraph.Pop` | gem5-extensions/src/cpu/runahead/dep_graph.hh:245-260 | the head of one list is returned and removed |
| `DepGraph.DependencyGraph.Empty` | gem5-extensions/src/cpu/runahead/dep_graph.hh:262-271 | the scan answers whether every list is empty, which is what the allocation counter being zero means |
| `DepGraph.DependencyGraph.Reset` | gem5-extensions/src/cpu/runahead/dep_graph.hh:158-185 | every list and producer is cleared and the counter returns to zero |
| `InstQueue.InstructionQueue.AddToDependents` | gem5-extensions/src/cpu/runahead/inst_queue.cc:1355-1400 | the loop over sources queues it on each list that is not ready and counts the ready ones |
| `InstQueue.InstructionQueue.AddToProducers` | gem5-extensions/src/cpu/runahead/inst_queue.cc:1402-1439 | the loop over destinations enters it as producer and clears the ready bits |
| `InstQueue.InstructionQueue.Insert` | gem5-extensions/src/cpu/runahead/inst_queue.cc:562-605 | insertion over heap lists is the insertion transition |
| `InstQueue.InstructionQueue.InsertNonSpec` | gem5-extensions/src/cpu/runahead/inst_queue.cc:607-651 | likewise for a non-speculative instruction |
| `InstQueue.InstructionQueue.Commit` | gem5-extensions/src/cpu/runahead/inst_queue.cc:964-980 | the head loop drops the committed instruction and everything older: in a list in program order exactly the younger ones stay |
| `InstQueue.InstructionQueue.Unlink` | gem5-extensions/src/cpu/runahead/inst_queue.cc:1248-1281 | removes the instruction from the list of each source that is not ready |
| `InstQueue.InstructionQueue.ClearHeads` | gem5-extensions/src/cpu/runahead/inst_queue.cc:1323-1345 | forgets the instruction as a producer |
| `InstQueue.InstructionQueue.SquashYoungest` | gem5-extensions/src/cpu/runahead/inst_queue.cc:1204-1346 | one turn of the squash walk |
| `InstQueue.InstructionQueue.DoSquash` | gem5-extensions/src/cpu/runahead/inst_queue.cc:1204-1346 | the whole walk over heap lists is the squash transition, and leaves exactly the instructions and nodes up to the squash point |
| `InstQueue.InstructionQueue.WakeList` | gem5-extensions/src/cpu/runahead/inst_queue.cc:1040-1081 | popping one register's list wakes each node's instruction once |
| `InstQueue.InstructionQueue.WakeDependents` | gem5-extensions/src/cpu/runahead/inst_queue.cc:982-1081 | the loop over destinations is the wake-up transition |
| `FuPool.GrantIsExact` | gem5-extensions/src/cpu/runahead/fu_pool.cc:161-187 | a granted unit is capable and free; refusal means no unit is capable, or all capable units are busy |
| `FuPool.GrantedIsFirstFree` | gem5-extensions/src/cpu/runahead/fu_pool.cc:162-187 | a request tries the units in circular order and is granted the first free one it meets; the next request starts right behind it |
| `FuPool.NextScanStartsBehind` | gem5-extensions/src/cpu/runahead/fu_pool.cc:162-187 | granted or refused, the next request starts right behind the unit this one looked at last, and the queue keeps its units |
| `FuPool.ExactOnlyIfArcCovers` | gem5-extensions/src/cpu/runahead/fu_pool.cc:161-187 | refusal is exact for every busy state iff the circular scan sees every unit before it meets its first again |
| `FuPoolRuns.RefusalExactIff` | gem5-extensions/src/cpu/runahead/fu_pool.cc:86-207 | over all runs of the pool built from a configuration, a refusal means that every capable unit is busy, if and only if the scan covers the queue from every position |
| `FuPoolRuns.Visit` | gem5-extensions/src/cpu/runahead/fu_pool.cc:161-187 | from any state with nothing about to be freed, some sequence of requests makes any chosen free unit the next to be granted, or is wrongly refused |
| `FuPoolRuns.RepeatedUnitHidesFreeOne` | gem5-extensions/src/cpu/runahead/fu_pool.cc:161-187 | two descriptions, one of which lists the operation twice, and a run of the pool built from them after which a request is refused with unit 1 free |
| `FuPool.QueueHoldsCapable` | gem5-extensions/src/cpu/runahead/fu_pool.cc:99-152 | the constructor's queue of an operation holds exactly the units of the descriptions that list it |
| `FuPool.QueueDistinct` | gem5-extensions/src/cpu/runahead/fu_pool.cc:99-152 | when no description lists an operation twice no queue repeats a unit |
| `FuPool.RunKeepsOwnership` | gem5-extensions/src/cpu/runahead/fu_pool.cc:161-207 | over any run a unit is busy iff it is on the duplicate-free to-be-freed list or held by one unpipelined operation, so no free assert fails |
| `FuPoolUnit.FUPool.constructor` | gem5-extensions/src/cpu/runahead/fu_pool.cc:86-159 | the nested loops build the specified queues and start every unit free |
| `FuPoolUnit.GetFU` | gem5-extensions/src/cpu/runahead/fu_pool.cc:64-74 | the circular index yields the next unit and wraps around |
| `FuPoolUnit.ScanQueue` | gem5-extensions/src/cpu/runahead/fu_pool.cc:161-187 | the do-while scan ends and is the grant specification |
| `FuPoolUnit.AddUnits` | gem5-extensions/src/cpu/runahead/fu_pool.cc:99-152 | appends a description's units to each queue it lists |
| `FuPoolUnit.FUPool.GetUnit` | gem5-extensions/src/cpu/runahead/fu_pool.cc:161-187 | grants as specified and marks the unit busy |
| `FuPoolUnit.FUPool.FreeUnitNextCycle` | gem5-extensions/src/cpu/runahead/fu_pool.cc:189-194 | the unit joins the to-be-freed list; its assert holds |
| `FuPoolUnit.FUPool.Issue` | gem5-extensions/src/cpu/runahead/inst_queue.cc:851-878 | after a grant the unit is either to be freed next cycle or held by a pending unpipelined completion |
| `FuPoolUnit.FUPool.ProcessCompletion` | gem5-extensions/src/cpu/runahead/inst_queue.cc:728-746 | a held unit moves to the to-be-freed list |
| `FuPoolUnit.FUPool.ProcessFreeUnits` | gem5-extensions/src/cpu/runahead/fu_pool.cc:196-207 | frees exactly the listed units; each is busy when its turn comes |
| `IssueOrder.AddReadyKeepsInv` | gem5-extensions/src/cpu/runahead/inst_queue.cc:1083-1103 | making an instruction ready keeps the index in step with the queues |
| `IssueOrder.PopAtKeepsInv` | gem5-extensions/src/cpu/runahead/inst_queue.cc:703-726 | popping a queue and moving its entry keeps the index in step |
| `IssueOrder.IndexRefinesQueues` | gem5-extensions/src/cpu/runahead/inst_queue.cc:677-726 | through any sequence of both, the index is ascending, has exactly one entry per non-empty class, and each entry shows its queue's top, so the assert at line 796 holds |
| `IssueQueue.AnswerMeans` | gem5-extensions/src/cpu/runahead/inst_queue.cc:838-850 | what a unit, a refusal and no capable unit mean to the scheduling loop |
| `IssueQueue.LeftBehindIsExhausted` | gem5-extensions/src/cpu/runahead/inst_queue.cc:781-921 | an instruction older than an issued one is left only when every capable unit of its class is busy |
| `IssueQueue.SpareBandwidth` | gem5-extensions/src/cpu/runahead/inst_queue.cc:781-921 | with bandwidth left every class that still has ready work has all its capable units busy |
| `IssueQueue.IssueQueue.AddToOrderList` | gem5-extensions/src/cpu/runahead/inst_queue.cc:677-701 | the search loop inserts the class behind every entry not younger than its top |
| `IssueQueue.IssueQueue.Reorder` | gem5-extensions/src/cpu/runahead/inst_queue.cc:1090-1102 | an entry whose queue got an older top is re-entered at its new place |
| `IssueQueue.IssueQueue.AddReady` | gem5-extensions/src/cpu/runahead/inst_queue.cc:1441-1478 | push and index update together are the ready transition |
| `IssueQueue.IssueQueue.MoveToYoungerInst` | gem5-extensions/src/cpu/runahead/inst_queue.cc:703-726 | the entry for the new top goes further down the index |
| `IssueQueue.IssueQueue.PopAt` | gem5-extensions/src/cpu/runahead/inst_queue.cc:815-835 | pop, re-entry or removal, and erase are the pop transition |
| `IssueQueue.IssueQueue.ScheduleReadyInsts` | gem5-extensions/src/cpu/runahead/inst_queue.cc:751-935 | ends; issues at most totalWidth instructions in ascending order, none squashed; issued, dropped and remaining instructions are the ones that were ready; each issued one has a capable unit of its own that was free; spare bandwidth or a skipped older instruction means all its capable units are busy |
| `ArchState.RenameKeepsInv` | gem5-extensions/src/cpu/runahead/rename.cc:1088-1141 | a rename keeps every physical register accounted for exactly once |
| `ArchState.NewRegIsUncommitted` | gem5-extensions/src/cpu/runahead/rename.cc:1088-1141 | a register allocated by an uncommitted rename is nobody's committed register |
| `ArchState.RetireKeepsInv` | gem5-extensions/src/cpu/runahead/rename.cc:968-1015 | freeing the overwritten register at commit keeps the accounting |
| `ArchState.SquashKeepsInv` | gem5-extensions/src/cpu/runahead/rename.cc:918-966 | undoing younger renames newest first keeps the accounting |
| `ArchState.SquashUndoes` | gem5-extensions/src/cpu/runahead/rename.cc:918-966 | a squash undoes exactly the newest renames down to the first that is not younger than the point: each register maps to what it did before the oldest of them, and exactly their registers are freed, newest first |
| `ArchState.SquashKeepsOlder` | gem5-extensions/src/cpu/runahead/rename.cc:926-928 | with the history newest first, a rename stays in it exactly if it is not younger than the squash point |
| `ArchState.WriteMissesCommitted` | gem5-extensions/src/cpu/runahead/cpu.cc:1354-1387 | a speculative write changes no architectural value |
| `ArchState.RestoreGivesInv` | gem5-extensions/src/cpu/runahead/cpu.cc:1820-1871 | from any state the restore gives equal maps, an empty history, no poison, and the checkpointed values for a saved class |
| `ArchState.RestoreSparesTheRest` | gem5-extensions/src/cpu/runahead/cpu.cc:1820-1871 | the restore readies exactly the registers it maps and leaves the values and ready bits of all others alone |
| `ArchState.FreeIsComplement` | gem5-extensions/src/cpu/runahead/free_list.cc:52-64 | with nothing in flight the map is injective and the free list is exactly the complement of its image, without repeats |
| `ArchState.EnoughRegisters` | gem5-extensions/src/cpu/runahead/regfile.cc:131-174 | there are always enough physical registers for the restore |
| `RunaheadArch.StepKeepsInv` | gem5-extensions/src/cpu/runahead/cpu.cc:1684-1871 | rename, execution, write-back, commit, squash, entry, exit, restore and stale events all keep the register invariants |
| `RunaheadArch.StepStutters` | gem5-extensions/src/cpu/runahead/cpu.cc:1684-1871 | no step but a commit in normal mode changes a saved architectural register or the commit PC |
| `RunaheadArch.CommitShowsItsValue` | gem5-extensions/src/cpu/runahead/commit.cc:1718-1733 | a commit in normal mode makes exactly its destination visible, with the value written to it |
| `RunaheadArch.SquashUndoesExactlyYounger` | gem5-extensions/src/cpu/runahead/rename.cc:918-966 | after every run that renames in program order, a squash undoes exactly the renames younger than its point and keeps the others |
| `RunaheadArch.CommitShowsExecuted` | gem5-extensions/src/cpu/runahead/commit.cc:1718-1733 | a commit in normal mode makes visible the value its instruction computed, however much was renamed, executed and squashed in between |
| `RunaheadArch.PeriodKeepsCommitMap` | gem5-extensions/src/cpu/runahead/commit.cc:1718-1733 | until the restore, nothing that happens in a period changes the commit map: pseudoretirement leaves no trace |
| `RunaheadArch.ReadyFromWritebackOn` | gem5-extensions/src/cpu/runahead/rename.cc:1109-1109 | over every run, a renamed destination is not ready before its write-back and is ready after it |
| `RunaheadArch.ReadyUntilTaken` | gem5-extensions/src/cpu/runahead/iew.cc:1478-1510 | over every run, a ready register stays ready until a rename allocates it again |
| `RunaheadArch.RunaheadIsTransparent` | gem5-extensions/src/cpu/runahead/cpu.cc:1684-1871 | over any run in which nothing commits in normal mode, any number of renames, executions, pseudoretirements, squashes, entries, exits, restores and stale write-backs leaves every Int, Float and CC register and the commit PC unchanged |
| `RunaheadArch.PeriodLeavesNoTrace` | gem5-extensions/src/cpu/runahead/cpu.cc:1646-1871 | a whole period, from entry to restore with any events in between, ends in normal mode at the PC it left and with every integer, float, vector element and condition code register as it was |
| `RunaheadArch.RestoredStateIsClean` | gem5-extensions/src/cpu/runahead/cpu.cc:1820-1871 | right after the restore, in every class, both maps agree and are injective, the free list is their complement, nothing is poisoned and every mapped register is ready |
| `RunaheadArch.StartIsValid` | gem5-extensions/src/cpu/runahead/regfile.cc:131-174 | the initial register file and maps satisfy the invariants |
| `RunaheadArch.UnsavedClassIsNotRestored` | gem5-extensions/src/cpu/runahead/arch_checkpoint.cc:75-75 | a vector or vector predicate register, outside the checkpoint, gets whatever its first physical register holds |
| `RegisterUnit.RegisterBank.GetReg` | gem5-extensions/src/cpu/runahead/free_list.hh:71-116 | pops the head of the free queue |
| `RegisterUnit.RegisterBank.ResetFreeList` | gem5-extensions/src/cpu/runahead/free_list.cc:52-64 | empties the queue and adds every register once |
| `RegisterUnit.RegisterBank.RenameDest` | gem5-extensions/src/cpu/runahead/rename_map.cc:72-105 | takes a free register, maps it and remembers the old one: the rename transition |
| `RegisterUnit.RegisterBank.DoSquash` | gem5-extensions/src/cpu/runahead/rename.cc:918-966 | the history loop undoes exactly the renames younger than the squash point, newest first, and keeps the others |
| `RegisterUnit.RegisterBank.FullSave` | gem5-extensions/src/cpu/runahead/arch_checkpoint.cc:35-66 | the loop records the committed value and index of every register of the class |
| `RegisterUnit.RegisterBank.RestoreValues` | gem5-extensions/src/cpu/runahead/arch_checkpoint.cc:68-114 | the loop writes back exactly the checkpointed values and clears the index list |
| `RegisterUnit.RegisterBank.ResetMaps` | gem5-extensions/src/cpu/runahead/cpu.cc:1820-1871 | each architectural register gets a fresh physical one in both maps and is ready |
| `RegisterUnit.RegisterBank.RestoreCheckpointState` | gem5-extensions/src/cpu/runahead/cpu.cc:1820-1871 | free list, maps, values and poison together are the restore transition |
| `Poison.InOrderSettles` | gem5-extensions/src/cpu/runahead/iew.cc:1252-1283 | in-order execution of a window leaves, at every instruction, the flag its sources imply and the results or untouched registers that flag implies |
| `Poison.StepKeepsInv` | gem5-extensions/src/cpu/runahead/inst_queue.cc:798-812 | issue, execution and write-back in any order keep every register between its initial and its in-order value according to the instruction's status |
| `Poison.AnyScheduleIsInOrder` | gem5-extensions/src/cpu/runahead/inst_queue.cc:798-812 | whatever the issue order, a window that has written back leaves the registers and poison of in-order execution |
| `Poison.PseudoretiredArePoisoned` | gem5-extensions/src/cpu/runahead/commit.cc:1718-1733 | the sanity assert at pseudoretirement holds: a written-back instruction is poisoned iff each of its destinations is |
| `Poison.InOrderHidesPoison` | gem5-extensions/src/cpu/runahead/iew.cc:1252-1283 | two register files that differ only in poisoned registers stay so under in-order execution |
| `Poison.PoisonHidesItsValues` | gem5-extensions/src/cpu/runahead/iew.cc:1499-1526 | non-interference: from such files, under any two schedules, the same registers end poisoned and all others end equal |
| `Poison.PoisonHidesItsValuesMidway` | gem5-extensions/src/cpu/runahead/iew.cc:1499-1526 | the same for each instruction written back in both runs, before the window is finished |
| `Poison.PoisonBits.AnySource` | gem5-extensions/src/cpu/runahead/inst_queue.cc:798-812 | the loop with its early exit answers whether some source is poisoned |
| `Poison.PoisonBits.WriteBack` | gem5-extensions/src/cpu/runahead/iew.cc:1499-1526 | the loop poisons or cures exactly the non-misc destinations |
| `Redirect.ArbitratedWins` | gem5-extensions/src/cpu/runahead/iew.cc:474-545 | after any sequence of requests the pending one was requested and is oldest, inclusive if any request at its instruction is |
| `Redirect.PendingPointIsMinimum` | gem5-extensions/src/cpu/runahead/iew.cc:474-545 | the pending squash point, minus one if inclusive, is the minimum requested |
| `Redirect.OrderDoesNotMatter` | gem5-extensions/src/cpu/runahead/iew.cc:474-545 | it does not depend on the order of the requests |
| `Redirect.NothingLost` | gem5-extensions/src/cpu/runahead/iew.cc:1382-1452 | from any state, also with a violator left by an earlier cycle, the pending request after a cycle squashes at least as much as every misprediction and violation of the cycle asked for, and was asked for by one of them or by that violator |
| `Redirect.FreshCycleIsExact` | gem5-extensions/src/cpu/runahead/iew.cc:1382-1452 | a cycle that begins with no violator arbitrates exactly as if nothing were discarded |
| `Redirect.BranchRequestHasCause` | gem5-extensions/src/cpu/runahead/iew.cc:1382-1394 | over every cycle, a pending branch request is that of a live, unpoisoned instruction with a wrong target that is no unexecuted load |
| `Redirect.WrongTargetRedirects` | gem5-extensions/src/cpu/runahead/iew.cc:1382-1410 | every such instruction raises its request, unless an older one is pending, and what is pending at the end of the cycle is no younger |
| `Redirect.LeftIsAlwaysRemoved` | gem5-extensions/src/cpu/runahead/iew.cc:1382-1452 | over any sequence of cycles and squashes reaching the load queue, a violator left behind lies above a squash that is still on its way |
| `LsqRedirect.RecordedIsDetected` | gem5-extensions/src/cpu/runahead/lsq_unit.cc:727-736 | the violator that issue/execute is modelled to see after a store's check is the one the load queue records |
| `LsqRedirect.LandedIsSquashed` | gem5-extensions/src/cpu/runahead/lsq_unit.cc:1183-1185 | a squash that reaches the load queue clears the violator exactly when the model of issue/execute does, and a request stays on its way exactly if it asks for an instruction the squash leaves |
| `Redirect.EveryCycleCovers` | gem5-extensions/src/cpu/runahead/iew.cc:1382-1452 | so in every cycle of every such sequence all demands are covered, and a request nobody in the cycle asked for removes nothing that a squash on its way does not |
| `Redirect.DiscardedAreYounger` | gem5-extensions/src/cpu/runahead/iew.cc:1382-1452 | in every cycle of every such sequence a violation that is discarded or left behind lies above the pending squash or one that is on its way |
| `Redirect.AssertSafeIffNoneLeft` | gem5-extensions/src/cpu/runahead/iew.cc:1413-1415 | the assert that a violation shows up at a memory access is safe for every next instruction iff no violator was left behind |
| `Redirect.LeftBehindExactly` | gem5-extensions/src/cpu/runahead/iew.cc:1388-1404 | a violator is left behind exactly by an access redirected as a mispredicted branch while a violation is recorded |
| `Redirect.AssertsHoldIff` | gem5-extensions/src/cpu/runahead/iew.cc:1412-1441 | from any state the asserts of a cycle all hold iff no live instruction that neither accesses memory nor redirects follows a redirecting branch that violates, or a violator brought along, with only squashed instructions and redirecting branches in between |
| `Redirect.AssertCanFail` | gem5-extensions/src/cpu/runahead/iew.cc:1412-1441 | a cycle in which the assert fails: a store that violates and was mispredicted, then an older addition |
| `Redirect.IewStage.SquashDueToBranch` | gem5-extensions/src/cpu/runahead/iew.cc:474-497 | the wire fields are the arbitration, strictly older only |
| `Redirect.IewStage.SquashDueToMemOrder` | gem5-extensions/src/cpu/runahead/iew.cc:499-524 | the wire fields are the arbitration, ties included |
| `Redirect.IewStage.SquashDueToRunahead` | gem5-extensions/src/cpu/runahead/iew.cc:526-545 | likewise for a runahead squash |
| `Redirect.IewStage.ExecuteOne` | gem5-extensions/src/cpu/runahead/iew.cc:1382-1452 | one instruction's redirect decision: a branch squash is raised only for, and unless an older request is pending always for, a live unpoisoned instruction with a wrong target that is no unexecuted load; fetch is redirected only by that or by a violation |
| `Redirect.IewStage.ExecuteInsts` | gem5-extensions/src/cpu/runahead/iew.cc:1184-1475 | the loop over a cycle's instructions is the specified fold |
| `CommitSquash.FilterDropsNothing` | gem5-extensions/src/cpu/runahead/commit.cc:1106-1111 | a squash the youngestSeqNum filter drops would remove nothing |
| `CommitSquash.OldestSquashWins` | gem5-extensions/src/cpu/runahead/commit.cc:1074-1180 | in a cycle with a squash of commit's own, one from issue/execute is taken only if it reaches at least as far back; against a runahead exit the point sent out is the minimum of both |
| `CommitSquash.CycleRemovesAsked` | gem5-extensions/src/cpu/runahead/commit.cc:1074-1180 | after a cycle with no trap pending nothing either side asked to remove is in the ROB |
| `CommitSquash.NoSurvivorOfAnySquash` | gem5-extensions/src/cpu/runahead/commit.cc:1074-1180 | the same over every run, for every squash ever asked for, taken or filtered out |
| `CommitSquash.CycleIsExact` | gem5-extensions/src/cpu/runahead/commit.cc:1074-1180 | with no trap pending, an instruction is left in the ROB exactly if issue/execute did not ask to remove it and no trap, thread-context, squash-after or runahead-exit squash is due; while a trap is pending nothing is touched; of commit's own squashes one is done and the others stay due |
| `CommitSquash.CommitStage.SquashEverything` | gem5-extensions/src/cpu/runahead/commit.cc:736-768 | nothing is left in the ROB: the point sent out lies at or above the last commit and below everything that was in flight |
| `CommitSquash.CommitStage.SquashFromRunaheadExit` | gem5-extensions/src/cpu/runahead/commit.cc:832-880 | everything in flight goes, the cause of runahead included, and the exit is no longer due |
| `CommitSquash.CommitStage.HandleSquashes` | gem5-extensions/src/cpu/runahead/commit.cc:1074-1180 | the object stays valid, its ROB holds exactly what no squash of the cycle asked to remove, and only the squash that was done is no longer due |
| `CommitSquash.CommitStage.Run` | gem5-extensions/src/cpu/runahead/commit.cc:1074-1180 | after any run with no trap pending, nothing any squash ever asked to remove is in the object's ROB |
| `ExitPolicy.RunKeepsInv` | gem5-extensions/src/cpu/runahead/commit.cc:627-734 | every run keeps the flags, deadline, overlap and reason invariants |
| `ExitPolicy.FlagsOnlyInRunahead` | gem5-extensions/src/cpu/runahead/commit.cc:832-880 | exitRunahead and runaheadExitable are true only in runahead |
| `ExitPolicy.ExitMeetsDeadline` | gem5-extensions/src/cpu/runahead/commit.cc:677-703 | under all four policies, once more than the deadline has passed since the signal, exitRunahead is set or the period has ended |
| `ExitPolicy.ReasonsFitPolicy` | gem5-extensions/src/cpu/runahead/commit.cc:640-675 | the reason of an exit fits each of the four policies; eager never waits; minimum work is done when claimed |
| `ExitPolicy.SignalDecides` | gem5-extensions/src/cpu/runahead/commit.cc:627-734 | in every reachable state, which policy ends the period when its load returns: eager always, minimum work iff the period has pseudoretired enough, NLLB iff no unsent load is left, dynamic iff too little was done or no near chain is left |
| `ExitPolicy.CycleEndDecides` | gem5-extensions/src/cpu/runahead/commit.cc:1819-1870 | in every reachable state, which waiting period the end of a cycle ends: minimum work iff enough is done, NLLB iff its load is gone, has executed or is older than the ROB's head, no other |
| `ExitPolicy.AwaitedLoadStays` | gem5-extensions/src/cpu/runahead/commit.cc:660-675 | over every run, the load a period waits for is the one its signal named |
| `ExitPolicy.PeriodsDoNotOverlap` | gem5-extensions/src/cpu/runahead/cpu.cc:1673-1679 | with overlap forbidden, the instructions pseudoretired in all periods but the latest sum to at most those retired in normal mode |
| `ExitPolicy.NoStaleDeadline` | gem5-extensions/src/cpu/runahead/commit.cc:681-700 | a period entered with no pending deadline for commit's copy of the cause is not ended by a deadline before it is signalled |
| `ExitPolicy.StaleDeadlineEndsPeriod` | gem5-extensions/src/cpu/runahead/commit.cc:681-700 | one entered while such an event is pending, and not signalled, does not outlive that event |
| `ExitPolicy.EarlyDeadlineIsStale` | gem5-extensions/src/cpu/runahead/commit.cc:686-691 | a deadline that ends an unsignalled period belongs to an earlier one, and the exit goes back to that period's load |
| `ExitPolicy.StaleDeadlineHappens` | gem5-extensions/src/cpu/runahead/commit.cc:686-691 | it happens for every amount of work, every wait for the load, every gap of normal mode and every deadline longer than the rest of the first period and the gap together |
| `ExitPolicy.CommitControl.SignalExitRunahead` | gem5-extensions/src/cpu/runahead/commit.cc:627-704 | once the load is back the exit is decided, or the period's own deadline is pending; eager never waits; the invariants hold |
| `ExitPolicy.CommitControl.DeadlineReached` | gem5-extensions/src/cpu/runahead/commit.cc:679-700 | a period that waits to end ends by its own deadline, and an event for another load changes nothing; the invariants hold |
| `ExitPolicy.CommitControl.UpdateRunaheadState` | gem5-extensions/src/cpu/runahead/commit.cc:1810-1870 | an exit is decided only in a signalled period; finished minimum work decides it, and so does the end of an NLLB wait and nothing else under that policy; the invariants hold |
| `ExitPolicy.CommitControl.FetchFaultInRunahead` | gem5-extensions/src/cpu/runahead/commit.cc:1668-1676 | the period ends at its own load, whatever cause was recorded before; the invariants hold |
| `ExitPolicy.CommitControl.SquashFromRunaheadExit` | gem5-extensions/src/cpu/runahead/commit.cc:832-880 | normal mode with no exit left over, and all finished periods but the last within what normal mode retired; the invariants hold |
| `ExitPolicy.CommitControl.EnterRunahead` | gem5-extensions/src/cpu/runahead/cpu.cc:1646-1749 | a period is entered exactly when none is running and overlap is allowed or normal mode has retired as much as the last period pseudoretired; with overlap forbidden normal mode has then retired at least what all periods so far pseudoretired; the invariants hold |
| `ExitPolicy.CommitControl.UpdateComInst` | gem5-extensions/src/cpu/runahead/commit.cc:1904-1912 | a leaving instruction adds one to the total pseudoretired or to what normal mode retired, by mode; the invariants hold |
| `ExitPolicy.CommitControl.EndOfCycle` | gem5-extensions/src/cpu/runahead/commit.cc:1810-1870 | after every cycle an exit that is due and not decided is within its deadline, and finished minimum work has decided it |
| `ExitPolicy.CommitControl.Run` | gem5-extensions/src/cpu/runahead/commit.cc:627-880 | after any run the object is valid and no exit that is due is late |
| `FetchDecode.HandshakeHolds` | gem5-extensions/src/cpu/runahead/fetch.cc:1003-1015 | in every reachable state decode is Blocked or Unblocking iff fetch is or is about to be stalled, fetch's asserts hold, and decode is Unblocking only with a non-empty skid buffer |
| `FetchDecode.NothingLostOrReordered` | gem5-extensions/src/cpu/runahead/decode.cc:581-753 | since the last squash what rename got, followed by what decode holds and what is on the wire, is what fetch sent, in order, none lost or repeated |
| `FetchDecode.RedirectPassesPrefix` | gem5-extensions/src/cpu/runahead/decode.cc:286-342 | a cycle in which decode squashes still passes on, in order, a prefix that ends with the redirecting instruction |
| `FetchDecode.EveryCyclePasses` | gem5-extensions/src/cpu/runahead/decode.cc:625-753 | in every reachable state a cycle that is neither stalled nor squashed passes on the longest in-order prefix that holds at most decodeWidth live instructions and none behind a live one that redirects; a stalled or squashed cycle passes nothing |
| `FetchDecode.TakenPasses` | gem5-extensions/src/cpu/runahead/decode.cc:653-735 | the loop stops exactly there: when all is used up, decodeWidth live instructions have gone, or one of them redirects |
| `FetchDecode.FetchSends` | gem5-extensions/src/cpu/runahead/fetch.cc:944-991 | unless it is stalled fetch empties its queue or sends decodeWidth of it, and of those exactly the ones on the runahead chain reach the wire |
| `FetchDecode.OffChainStaysBehind` | gem5-extensions/src/cpu/runahead/fetch.cc:944-991 | in every reachable state no instruction off the runahead chain is on the wire, in decode or in rename |
| `FetchDecode.StopsOnlyForWork` | gem5-extensions/src/cpu/runahead/decode.cc:268-284 | in every reachable state, after a cycle that is neither stalled nor squashed decode is stopped exactly while it keeps something |
| `FetchPath.WrongPathIsGone` | gem5-extensions/src/cpu/runahead/decode.cc:286-389 | over every run, after a squash from commit or a redirect of decode rename gets only instructions fetched since, until the next one: nothing of the wrong path gets through, from the queue, the wire or the skid buffer |
| `FetchDecode.SkidStaysBelowBursts` | gem5-extensions/src/cpu/runahead/decode.cc:391-413 | the skid buffer never holds more than two of the largest batches fetch can send |
| `FetchDecode.SkidOverflows` | gem5-extensions/src/cpu/runahead/decode.cc:410-412 | for every configuration whose largest batch exceeds fetchWidth, and after any number of instructions have gone through, a concrete run breaks the skid buffer assert |
| `FetchDecode.SkidFitsExactly` | gem5-extensions/src/cpu/runahead/decode.cc:410-412 | the assert holds in all runs iff decodeWidth or the fetch queue is no larger than fetchWidth |
| `DecodeUnit.DecodeStage.SkidInsert` | gem5-extensions/src/cpu/runahead/decode.cc:391-413 | the loop moves all inputs behind the skid buffer |
| `DecodeUnit.DecodeStage.Block` | gem5-extensions/src/cpu/runahead/decode.cc:239-266 | block, or take back an unblock raised in the same cycle |
| `DecodeUnit.DecodeStage.Unblock` | gem5-extensions/src/cpu/runahead/decode.cc:268-284 | unblock exactly when the skid buffer is empty |
| `DecodeUnit.DecodeStage.SquashFrom` | gem5-extensions/src/cpu/runahead/decode.cc:286-342 | squash for a wrong target, unblocking fetch if needed |
| `DecodeUnit.DecodeStage.SquashAll` | gem5-extensions/src/cpu/runahead/decode.cc:344-389 | squash from commit in both system modes |
| `DecodeUnit.DecodeStage.CheckSignalsAndUpdate` | gem5-extensions/src/cpu/runahead/decode.cc:490-544 | the status after the cycle's signals |
| `DecodeUnit.DecodeStage.DecodeFrom` | gem5-extensions/src/cpu/runahead/decode.cc:653-735 | the pop loop uses up the longest prefix that holds at most decodeWidth live instructions and none behind a live one that redirects, and passes on its live instructions |
| `DecodeUnit.DecodeStage.DecodeInsts` | gem5-extensions/src/cpu/runahead/decode.cc:625-753 | from the skid buffer or from fetch, then block with the rest |
| `DecodeUnit.DecodeStage.Tick` | gem5-extensions/src/cpu/runahead/decode.cc:546-623 | a whole cycle is the specified decode cycle; it never passes on more than decodeWidth instructions, and no fewer than it may |
| `DecodeUnit.FetchStage.ReadSignals` | gem5-extensions/src/cpu/runahead/fetch.cc:1003-1015 | the stall latch after decode's signals |
| `DecodeUnit.FetchStage.SendToDecode` | gem5-extensions/src/cpu/runahead/fetch.cc:944-991 | the loop takes decodeWidth instructions or all there are, sends exactly those on the runahead chain and drops the others |

## Left out

- LsqResults.LoadsAgreeWithInOrderMemory: plain accesses only; LL/SC, atomics, HTM, prefetches, strictly ordered and local accesses and snoops are not modelled, and addresses do not wrap at 64 bits.
- LsqUnit.LSQUnit.Read: the bytes a runahead load gets from the R-cache are an arbitrary reply, because nothing architectural depends on them.
- LsqUnit.LSQUnit.WritebackStores: what the loop does after it has skipped a store is not described; a split store whose first packet is accepted and second refused is not modelled.
- LsqResults.RequestFlagsAgree: an access whose bytes are all masked out, which keeps no saved request, is not modelled.
- LsqResults.ServedAtAnyTime: a split load is served as a whole; `SplitRequest.SplitLoadIsLoad` is about its parts, with memory unchanged between them.
- LsqResults.QuarantineIsForever: an exit squash and the change of mode reach the queue in one step.
- LsqKept.RetiredStoreIsNeverLost: an exit that a stale deadline sends back past its own load before the older commits are reported is excluded.
- LsqTheorems.StepKeepsInv: write-back attempts that skip a store are not among the events; `LsqPorts.TryKeepsCoreIff` says that they are the ones that break it.
- SplitRequest.SplitLoadIsLoad: translation itself, partial faults after the first packet and request ownership are not modelled.
- IqProof.InsertKeepsInv: an instruction that waits for the destination of a nop is excluded: dispatch records a nop as a producer but nothing ever wakes its consumers, so the source relies on nops having no destinations.
- IqRuns.RunKeepsInv: pinned registers, several threads, the map of waiting non-speculative instructions and the memory dependence predictor are not modelled.
- IqProgress.QueueCanDrain: that the scheduler takes these steps is not claimed; functional units and memory may hold an instruction back.
- FuPoolUnit.FUPool.Issue: operation latencies and the pipelined table are parameters.
- IssueQueue.IssueQueue.ScheduleReadyInsts: the delay of a functional unit's completion event is not modelled; deferred and blocked memory instructions come back as ready ones.
- RunaheadArch.RunaheadIsTransparent: vector, predicate and misc registers are outside it, because the checkpoint skips the first two and the restore the last.
- RunaheadArch.RestoredStateIsClean: poison bits set after the restore by a stale write-back are not excluded; only values are.
- Poison.PoisonHidesItsValues: a window is a set of renamed instructions in flight together, so no register is written twice in it; stores, poisoned addresses and predicated instructions that forward old registers are not tracked by register poison.
- CommitSquash.NoSurvivorOfAnySquash: the ROB drops squashed instructions at once instead of a few per cycle; while a trap is pending, requests are ignored as in the source and the trap's own squash empties the ROB.
- ExitPolicy.ExitMeetsDeadline: that a set exit flag is acted on is not claimed, since traps and pending squashes come first.
- FetchDecode.SkidFitsExactly: both wires take one cycle, the default delay.
- FetchDecode.NothingLostOrReordered: instruction-cache access and the content of the fetch queue are inputs.
- Interrupts, drain, CPU switching, statistics, probes, the checker and the R-cache's own replacement are not modelled.
