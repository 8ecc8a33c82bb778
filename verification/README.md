# Beryl in Dafny

Beryl is a distributed storage layer: a Metadata authority, Workers that hold fixed-size blocks, and a
native client. This project models the parts of it whose correctness rests on state and interleaving
rather than on I/O, and proves what they promise.

- **Write sessions.** `SessionSpec` says what every operation of the leader-local session registry does
  to its two primary maps, with every count taken by a scan. `SessionRegistry.Registry` is the registry
  as it is written: the same maps with ten derived indexes and counters updated in place, each method
  proved to do what the scan-level function says. `SessionInvariant` is what every operation keeps,
  `SessionRuns` what follows for whole runs, `SessionGuards` what a stale guard can do, `SessionAnswers`
  exactly when each operation succeeds and what it then answers and changes, `SessionIndex` how the
  indexes follow the maps.
- **File publication.** `Inode` holds the block arithmetic, the merge of a publication into a file, the
  ordered durable mutations and the recognition of a completed commit.
- **Reading.** `Planner` turns block locations into reads, `ReadLayouts` keeps one block of a layout
  between sequential steps, `Reader.FileReader` reads through both.
- **Block reports.** `BlockReport` relates the bounded dirty map of a Worker to an unbounded change log.
- **Retrying.** `ClientErrors` and `Attempts` are the retry policy and the attempt loop of a Metadata
  call, with the outcome it reports.
- **Placement.** `Placement` chooses Workers for writes and for reads.
- **Readiness and admission.** `Readiness` and `Admission` are state machines over single atomic steps,
  for any number of concurrent callers.

`BerylTypes` holds the shared vocabulary, `Sorting` the stable sort by tuple keys, `MapSums` totals over
maps. Clocks, randomness, Metadata and Worker answers, sleeps and deadlines are parameters. Integers are
unbounded; the 64-bit and 32-bit limits are written out where the source checks them.

## What the proofs turned up

- `ActiveRequestPermit` is documented as releasing its permits together. It drops them one by one, and the
  regular permit before the total one. Between the two another regular request can be admitted, so a
  control request can be refused while control requests hold fewer total permits than are reserved for
  them (`Admission.ControlRefusedBelowReserve`). `Admission.ControlReserveExact` gives the exact condition.
- `WriteOpening::activate` disarms its guard on every not-current result. A file or layout mismatch gives
  that result while the opening is still installed (`SessionGuards.FailedActivationReleases`, at a run in
  `SessionGuards.StrandingRun`). The guard is then used up, and the opening stays until its expiry
  (`SessionGuards.StrandedUntilExpiry`).
- Issued targets ascend strictly except after a reopened tail of no capacity
  (`SessionRuns.AscendingUnlessEmptyTail`). The registry does not check the capacity of a tail; the
  OpenWrite service builds tails from a validated layout only (beryl-metadata/src/service/filesystem/write.rs:695-704),
  so no run that reaches such a tail is shown.
- A cached block plan keeps the first location listed for the planned block at its offset. It contains the
  offset it was made for exactly when that location reaches past it (`ReadLayouts.NewPlanContainsExact`).
  With a block listed twice it may not (`ReadLayouts.TwiceListedMissesCursor`), and then the subtraction
  `plan.end - offset` of a sequential step would underflow; or it may all the same
  (`ReadLayouts.LongerFirstKeepsCursor`).
- A mutation that was refused outright can be reported with unknown outcome: after a stale-state refusal the
  client refreshes its state, and a malformed Msync response carries the same flag as a malformed response
  to the mutation itself (`Attempts.RefusedYetUnknown`). `Attempts.UnknownOutcomeExact` says that no other
  refused mutation is. A mutation never sent because its deadline had passed is reported so as well: the
  attempt returns the ambiguous timeout (beryl-client/src/metadata/client.rs:687-703), and the model counts it
  as a call that may have taken effect.
- Acknowledging a full block report at the revision it was cut at never drops anything
  (`BlockReport.IssuedCutDropsNothing`).
- A Worker whose first adequate report names an old run is not offered for reads even if a later report
  names the current one (`Placement.HoldersExact`, at an input in `Placement.OldReportHidesHolder`).
- A read inside the file is refused as an overflow exactly when its offset plus one bounded step does not fit
  in 64 bits, even if the file ends before that (`Reader.FileReader.Read`, `Reader.FileReader.ReadAt`).
  `Reader.FileReader.ReadToEnd` is not affected.

## Model

| member | source | states |
|---|---|---|
| SessionRegistry.Registry.constructor | beryl-metadata/src/session_registry.rs:613-707 | a new registry is empty and its indexes agree with its maps |
| SessionRegistry.FirstOf | beryl-metadata/src/session_registry.rs:1878-1915 | the first element of an ordered expiry set is its minimum |
| SessionRegistry.LastOf | beryl-metadata/src/session_registry.rs:1436-1444 | the last key of an ancestor's expiry multiset is its maximum |
| SessionRegistry.Acyclic | beryl-metadata/src/session_registry.rs:1447-1483 | an ancestor chain is accepted exactly when no inode repeats |
| SessionRegistry.IndexChain | beryl-metadata/src/session_registry.rs:1668-1700 | one expiry is added for every inode of the chain and no other count changes |
| SessionRegistry.UnindexChain | beryl-metadata/src/session_registry.rs:1856-1875 | one expiry is taken off every inode of the chain and empty multisets are dropped |
| SessionRegistry.MoveChain | beryl-metadata/src/session_registry.rs:1836-1854 | an expiry moves on every inode of the chain, also when old and new coincide |
| SessionRegistry.Registry.InsertEntry | beryl-metadata/src/session_registry.rs:1668-1700 | the entry is added and every index again equals a scan |
| SessionRegistry.Registry.RemoveEntry | beryl-metadata/src/session_registry.rs:1772-1816 | the entry is removed and every index again equals a scan |
| SessionRegistry.Registry.InsertCreateOpening | beryl-metadata/src/session_registry.rs:1702-1733 | the create opening is added and every index again equals a scan |
| SessionRegistry.Registry.RemoveCreateOpening | beryl-metadata/src/session_registry.rs:1735-1770 | the create opening is removed and every index again equals a scan |
| SessionRegistry.Registry.UpdateSession | beryl-metadata/src/session_registry.rs:1041-1121 | a session is replaced in place with its target counters |
| SessionRegistry.Registry.MoveSession | beryl-metadata/src/session_registry.rs:1836-1854 | a session is replaced with its expiry moved in both expiry indexes from the deadline the caller names, which is the indexed one |
| SessionRegistry.Registry.ReleaseSync | beryl-metadata/src/session_registry.rs:1572-1581 | the publication is released and a pinned session's expiry moves back from the pin to its deadline |
| SessionRegistry.Registry.RetireExpiredEntryForInode | beryl-metadata/src/session_registry.rs:1935-1945 | the entry of one inode is removed exactly when its retirement has passed |
| SessionRegistry.Registry.RetireExpiredCreateForOperation | beryl-metadata/src/session_registry.rs:1918-1933 | the create opening of one operation is removed exactly when it has expired |
| SessionRegistry.Registry.ChooseVictim | beryl-metadata/src/session_registry.rs:1878-1915 | the indexed choice is the earliest expired write of a scan |
| SessionRegistry.Registry.RetireVictim | beryl-metadata/src/session_registry.rs:1878-1915 | the chosen write is retired and nothing else |
| SessionRegistry.Registry.RetireExpiredEntries | beryl-metadata/src/session_registry.rs:1878-1915 | the loop over the expiry indexes is the bounded sweep |
| SessionRegistry.Registry.Tidy | beryl-metadata/src/session_registry.rs:1878-1945 | an expired entry of the inode at hand goes first, then a bounded sweep |
| SessionRegistry.Registry.HasActiveWriteUnder | beryl-metadata/src/session_registry.rs:1436-1444 | the answer from the index is that of a scan for an unexpired write below the inode, although the sweep is bounded |
| SessionRegistry.Registry.SessionCapacity | beryl-metadata/src/session_registry.rs:780-798 | the indexed counts decide as the scanned counts would |
| SessionRegistry.Registry.PathBusy | beryl-metadata/src/session_registry.rs:831-863 | the path index holds a path exactly when some create opening does |
| SessionRegistry.Registry.BeginSession | beryl-metadata/src/session_registry.rs:831-897 | state and result are those of the scan-level operation, every refusal in the source's order |
| SessionRegistry.Registry.BeginCreate | beryl-metadata/src/session_registry.rs:725-829 | state and result are those of the scan-level operation, whose answers are written out in `SessionAnswers.CreateRetryAnswers` and `SessionAnswers.FreshCreateAnswers` |
| SessionRegistry.Registry.CreateHere | beryl-metadata/src/session_registry.rs:737-779 | a live session or opening of the same operation is answered before capacity is looked at, as `SessionAnswers.HeldReplayAnswers` writes it out |
| SessionRegistry.Registry.ReserveCreate | beryl-metadata/src/session_registry.rs:780-829 | capacity, path and identity are reserved together |
| SessionRegistry.Registry.CreateRefused | beryl-metadata/src/session_registry.rs:780-815 | the first refusal that applies, in the source's order |
| SessionRegistry.Registry.FinishOpening | beryl-metadata/src/session_registry.rs:518-538 | activation through the guard, which disarms on not-current and cancels on other failures |
| SessionRegistry.Registry.ActivateOpening | beryl-metadata/src/session_registry.rs:900-963 | the opening becomes a session only if it is the current one, unexpired, with its proposed epoch and its file |
| SessionRegistry.Registry.DropOpening | beryl-metadata/src/session_registry.rs:1988-1995 | dropping an opening guard removes only its own opening |
| SessionRegistry.Registry.DiscardEntry | beryl-metadata/src/session_registry.rs:1610-1619 | an entry is discarded with its index contributions |
| SessionRegistry.Registry.FinishCreate | beryl-metadata/src/session_registry.rs:546-569 | create activation through the guard |
| SessionRegistry.Registry.ActivateCreate | beryl-metadata/src/session_registry.rs:967-1032 | a create opening becomes the session of the new inode within the capacity it reserved |
| SessionRegistry.Registry.BindCreate | beryl-metadata/src/session_registry.rs:995-1032 | opening out and session in, with the replay index of the operation |
| SessionRegistry.Registry.DropCreate | beryl-metadata/src/session_registry.rs:1997-2004 | dropping a create guard removes only its own opening |
| SessionRegistry.Registry.DiscardCreate | beryl-metadata/src/session_registry.rs:1621-1630 | a create opening is discarded with its index contributions |
| SessionRegistry.Registry.InstallSession | beryl-metadata/src/session_registry.rs:1098-1110 | an active session changes in place, with its target counters, and the invariant is kept |
| SessionRegistry.Registry.BeginAllocate | beryl-metadata/src/session_registry.rs:1041-1121 | replay, refusal or reservation as the scan-level operation says, which `SessionAnswers.AllocateAnswers` writes out with the offset reserved; the step index is never inconsistent |
| SessionRegistry.Registry.CompleteTarget | beryl-metadata/src/session_registry.rs:1172-1217 | a valid target joins the chain and its step becomes replayable; an invalid one releases the reservation |
| SessionRegistry.Registry.DropTarget | beryl-metadata/src/session_registry.rs:1632-1665 | dropping a reservation clears only its own pending allocation |
| SessionRegistry.Registry.BeginPublication | beryl-metadata/src/session_registry.rs:1128-1169 | a publication is issued only without a pending allocation or another publication, and carries the frozen session |
| SessionRegistry.Registry.Revalidate | beryl-metadata/src/session_registry.rs:1486-1504 | the session is returned only while the publication is current |
| SessionRegistry.Registry.MarkSubmitted | beryl-metadata/src/session_registry.rs:375-396 | state and result are those of the scan-level operation: a current, unexpired publication is pinned (`SessionAnswers.SubmissionPins`) until its outcome is known |
| SessionRegistry.Registry.PartitionPoint | beryl-metadata/src/session_registry.rs:1507-1569 | the binary search finds the first target that does not start below the size |
| SessionRegistry.Registry.CompleteSyncAt | beryl-metadata/src/session_registry.rs:1507-1581 | truncation, counters and unpinning as the scan-level operation says |
| SessionRegistry.Registry.CompleteSync | beryl-metadata/src/session_registry.rs:359-372 | completing through the guard, which on failure cancels the publication unless it was submitted |
| SessionRegistry.Registry.DropPublication | beryl-metadata/src/session_registry.rs:2015-2025 | a dropped guard cancels its publication unless it was submitted |
| SessionRegistry.Registry.CompleteCommit | beryl-metadata/src/session_registry.rs:1584-1597 | only the session of the committed publication is removed |
| SessionRegistry.Registry.GetSession | beryl-metadata/src/session_registry.rs:1280-1289 | lookup after clean-up returns an active session only |
| SessionRegistry.Registry.RemoveIfEpoch | beryl-metadata/src/session_registry.rs:1309-1321 | removal exactly of an active session of that epoch, pinned or not |
| SessionRegistry.Registry.ValidateSession | beryl-metadata/src/session_registry.rs:1324-1347 | lease first, then presence and epoch; an expired unpinned session is removed |
| SessionRegistry.Registry.RenewSession | beryl-metadata/src/session_registry.rs:1359-1413 | the deadline moves with both expiry indexes; lease, presence, epoch and owner are checked in this order |
| SessionRegistry.Registry.RetireExpiredBatch | beryl-metadata/src/session_registry.rs:1416-1419 | one bounded sweep and the number it retired |
| SessionRegistry.Registry.SessionGauges | beryl-metadata/src/session_registry.rs:1968-1976 | the two session gauges are the scanned numbers of openings and of active sessions |
| SessionRegistry.Registry.TargetGauges | beryl-metadata/src/session_registry.rs:1979-1985 | the two target gauges are the scanned numbers of pending and of issued targets |
| SessionIndex.InsertAgrees | beryl-metadata/src/session_registry.rs:1668-1700 | the index updates of an insertion keep all indexes equal to a scan |
| SessionIndex.RemoveAgrees | beryl-metadata/src/session_registry.rs:1772-1816 | the index updates of a removal keep all indexes equal to a scan |
| SessionIndex.InsertCreateAgrees | beryl-metadata/src/session_registry.rs:1702-1733 | the same for a create opening inserted |
| SessionIndex.RemoveCreateAgrees | beryl-metadata/src/session_registry.rs:1735-1770 | the same for a create opening removed |
| SessionIndex.ReplaceAgrees | beryl-metadata/src/session_registry.rs:1081-1108 | the same for a session replaced with its target counters |
| SessionIndex.MoveAgrees | beryl-metadata/src/session_registry.rs:1836-1854 | the same for a session whose expiry moves |
| SessionIndex.EntryContributes | beryl-metadata/src/session_registry.rs:1856-1875 | everything an entry contributed is in the indexes, so no removal can fail its expectation |
| SessionIndex.CreateContributes | beryl-metadata/src/session_registry.rs:1735-1770 | everything a create opening contributed is in the indexes, so no removal can fail its expectation |
| SessionIndex.VictimIndexed | beryl-metadata/src/session_registry.rs:1878-1915 | choosing by the two expiry indexes is choosing by a scan |
| SessionIndex.ActivityIndexed | beryl-metadata/src/session_registry.rs:1436-1444 | the largest indexed expiry below an inode passes the clock exactly when a scan finds an active write there |
| SessionIndex.PathIndexed | beryl-metadata/src/session_registry.rs:1702-1733 | the path index is exact |
| SessionIndex.OperationIndexed | beryl-metadata/src/session_registry.rs:737-779 | the operation index is exact |
| SessionIndex.OpeningsWithinEntries | beryl-metadata/src/session_registry.rs:1968-1976 | the entries the opening counter leaves are the active sessions, so it never exceeds them |
| SessionIndex.PendingWithinOutstanding | beryl-metadata/src/session_registry.rs:1979-1985 | the outstanding targets the pending counter leaves are the issued ones, so it never exceeds them |
| SessionInvariant.SweepRetires | beryl-metadata/src/session_registry.rs:1878-1915 | a sweep retires at most its budget, earliest expiry first, only expired writes, and leaves none expired when it stops short |
| SessionInvariant.SweepKeepsActive | beryl-metadata/src/session_registry.rs:1436-1444 | a sweep never changes whether a write is active below an inode |
| SessionInvariant.SweepKeeps | beryl-metadata/src/session_registry.rs:1878-1915 | a sweep keeps the invariant |
| SessionInvariant.TidyKeeps | beryl-metadata/src/session_registry.rs:1935-1945 | the clean-up before an operation keeps the invariant |
| SessionInvariant.BeginSessionKeeps | beryl-metadata/src/session_registry.rs:831-897 | the invariant is kept |
| SessionInvariant.BeginCreateKeeps | beryl-metadata/src/session_registry.rs:725-829 | the invariant is kept |
| SessionInvariant.FinishOpeningKeeps | beryl-metadata/src/session_registry.rs:900-963 | the invariant is kept, also with a reopened tail that owns a target |
| SessionInvariant.FinishCreateKeeps | beryl-metadata/src/session_registry.rs:967-1032 | the invariant is kept through the conversion of an opening into a session |
| SessionInvariant.BeginAllocateKeeps | beryl-metadata/src/session_registry.rs:1041-1121 | the invariant is kept and a replayed step is always in range |
| SessionInvariant.CompleteTargetKeeps | beryl-metadata/src/session_registry.rs:1172-1257 | the invariant is kept |
| SessionInvariant.CancelTargetKeeps | beryl-metadata/src/session_registry.rs:1632-1665 | the invariant is kept |
| SessionInvariant.BeginPublicationKeeps | beryl-metadata/src/session_registry.rs:1128-1169 | the invariant is kept and the new snapshot is the session |
| SessionInvariant.MarkSubmittedKeeps | beryl-metadata/src/session_registry.rs:375-396 | the invariant is kept |
| SessionInvariant.CompleteSyncKeeps | beryl-metadata/src/session_registry.rs:1507-1581 | the invariant is kept |
| SessionInvariant.DropPublicationKeeps | beryl-metadata/src/session_registry.rs:1600-1608 | the invariant is kept |
| SessionInvariant.ValidateSessionKeeps | beryl-metadata/src/session_registry.rs:1324-1347 | the invariant is kept |
| SessionInvariant.RenewSessionKeeps | beryl-metadata/src/session_registry.rs:1359-1413 | the invariant is kept |
| SessionInvariant.RetainedExact | beryl-metadata/src/session_registry.rs:1507-1569 | the retained prefix is exactly the targets that start below the size |
| SessionInvariant.OffsetsAscend | beryl-metadata/src/session_registry.rs:1265-1276 | allocated targets of a contiguous chain ascend strictly |
| SessionRuns.StepKeeps | beryl-metadata/src/session_registry.rs:613-642 | every registry operation, with any guard of any age, keeps the invariant |
| SessionRuns.RunKeeps | beryl-metadata/src/session_registry.rs:613-642 | so does every run |
| SessionRuns.ReachableHolds | beryl-metadata/src/session_registry.rs:613-642 | every reachable registry satisfies the invariant |
| SessionRuns.RunStaysWithinLimits | beryl-metadata/src/session_registry.rs:780-863 | in every run sessions plus create openings, each client, all targets and each session stay within their limits |
| SessionRuns.AscendingUnlessEmptyTail | beryl-metadata/src/session_registry.rs:1265-1276 | contiguous targets ascend strictly exactly unless a first target without capacity was followed |
| SessionRuns.RunIssuesContiguousTargets | beryl-metadata/src/session_registry.rs:1041-1121 | in every run a session's targets are contiguous, every allocated one is a whole block of the file in the layout's shape under the session's client and epoch, and its steps are exactly the predecessors of the allocated chain |
| SessionRuns.ReplayReturnsIssuedTarget | beryl-metadata/src/session_registry.rs:1041-1078 | an allocation is answered by replay with a target exactly when that target was issued after the named predecessor |
| SessionRuns.SyncRetiresExactSuffix | beryl-metadata/src/session_registry.rs:1507-1569 | a completed sync of new content keeps exactly the targets below the new size, forgets the steps of the rest and returns their capacity; one of known content keeps all; nothing else changes beyond the clean-up |
| SessionRuns.RunFreezesPublishedSessions | beryl-metadata/src/session_registry.rs:1128-1169 | in every run no session has both a pending allocation and a publication, and a published session equals the snapshot its owner holds |
| SessionRuns.StepSparesPinned | beryl-metadata/src/session_registry.rs:1935-1945 | at any clock below the pin an operation leaves a session with a submitted publication as it is exactly unless it resolves it: its sync completes, its commit completes, or its epoch is removed; a sync that fails leaves it |
| SessionRuns.ResolutionUnpins | beryl-metadata/src/session_registry.rs:1572-1597 | a resolution ends the pin |
| SessionRuns.PinnedExcludes | beryl-metadata/src/session_registry.rs:188-193 | such a session stays active under its ancestors and admits no new block, no publication and no second opening |
| SessionRuns.RunSparesPinned | beryl-metadata/src/session_registry.rs:1572-1597 | the same along every run in which no operation resolves it in the state it meets |
| SessionGuards.StepAdvances | beryl-metadata/src/session_registry.rs:831-897 | no operation makes an old opening, publication or unactivated epoch current again, nor loses an issued target without a sync |
| SessionGuards.StaleStaysStale | beryl-metadata/src/session_registry.rs:900-923 | a stale opening, create opening or publication stays stale along every run |
| SessionGuards.StaleOpeningIsInert | beryl-metadata/src/session_registry.rs:1610-1619 | finishing or dropping a stale opening guard changes nothing, even after a replacement with the same epoch |
| SessionGuards.StaleCreateIsInert | beryl-metadata/src/session_registry.rs:978-982 | the same for a create guard |
| SessionGuards.StalePublicationIsInert | beryl-metadata/src/session_registry.rs:1584-1608 | a stale publication can neither commit, cancel, pin nor sync |
| SessionGuards.ActivationExact | beryl-metadata/src/session_registry.rs:900-1032 | a session that is not current becomes so exactly by a successful activation of its epoch; a failed one changes nothing about it |
| SessionGuards.StaleReservationIsInert | beryl-metadata/src/session_registry.rs:1632-1665 | a reservation of an ended session changes nothing in every run in which no activation of its epoch succeeds |
| SessionGuards.EndedSessionStaysEnded | beryl-metadata/src/session_registry.rs:1172-1217 | a session that ended is not current again in every such run |
| SessionGuards.StepKeepsIssued | beryl-metadata/src/session_registry.rs:1507-1569 | while its session lives, an operation leaves a step answered with the same target exactly unless it completes a sync of new content that ends at or before it |
| SessionGuards.RunKeepsIssued | beryl-metadata/src/session_registry.rs:1059-1078 | while its session lives and no sync retracts it, every retry of a step is answered with the same target |
| SessionGuards.CompletedTargetReplays | beryl-metadata/src/session_registry.rs:1172-1217 | a completed reservation, the first included, answers every retry of its own step with its target |
| SessionGuards.NothingReplaysYet | beryl-metadata/src/session_registry.rs:940-963 | a session just opened, with or without a tail, answers no step by replay |
| SessionGuards.FailedActivationReleases | beryl-metadata/src/session_registry.rs:518-538 | a failed activation leaves its opening installed exactly when it failed on the file, else releases precisely it |
| SessionGuards.StepSparesOpening | beryl-metadata/src/session_registry.rs:1878-1945 | before its expiry an operation leaves an opening as it is exactly unless it drops it or finishes it other than by failing on the file |
| SessionGuards.RunSparesOpening | beryl-metadata/src/session_registry.rs:1878-1945 | the same along every run |
| SessionGuards.StrandedUntilExpiry | beryl-metadata/src/session_registry.rs:518-538 | an opening whose activation failed on the file stays through every run before its expiry and goes with the first clean-up after it |
| SessionGuards.FirstOpening | beryl-metadata/src/session_registry.rs:831-897 | an empty registry admits every valid request |
| SessionGuards.StrandingRun | beryl-metadata/src/session_registry.rs:925-927 | a run that leaves an opening installed after its activation failed |
| SessionGuards.FailedCreationReleases | beryl-metadata/src/session_registry.rs:546-569 | a failed create activation always releases precisely its opening |
| SessionAnswers.SubmissionPins | beryl-metadata/src/session_registry.rs:375-396 | a submission succeeds exactly for the live session that still holds the publication, before its deadline and with an epoch left; then session and owner are marked and nothing else changes |
| SessionAnswers.SubmittedSurvives | beryl-metadata/src/session_registry.rs:375-396 | from then on the session survives every run at clocks below the pin in which nothing resolves it, past its deadline, with all it held |
| SessionAnswers.AllocateAnswers | beryl-metadata/src/session_registry.rs:1041-1121 | the exact condition of every answer of AllocateBlock; a reservation starts where the last target ends, at the end of the file when appending, at 0 when overwriting |
| SessionAnswers.CompletionAnswers | beryl-metadata/src/session_registry.rs:1172-1257 | a reservation is completed exactly by a whole block of the file at that offset in the layout's shape under the session's authority; any other target releases it |
| SessionAnswers.FirstTargetStarts | beryl-metadata/src/session_registry.rs:1265-1276 | the first target after opening a file starts at its length when appending without a tail, after the reopened tail, or at 0 when overwriting |
| SessionAnswers.CancelledReservation | beryl-metadata/src/session_registry.rs:1632-1665 | dropping a reservation clears exactly its own slot, if it is current |
| SessionAnswers.DroppedReservationFrees | beryl-metadata/src/session_registry.rs:1632-1665 | then the same AllocateBlock is admitted again exactly unless the file offset is exhausted |
| SessionAnswers.BeginAnswers | beryl-metadata/src/session_registry.rs:831-897 | the exact condition of every answer of OpenWrite, Busy for a held path included, and every field of the opening |
| SessionAnswers.OpeningAnswers | beryl-metadata/src/session_registry.rs:900-963 | an opening is activated exactly by its own guard before its deadline with its epoch, a matching file and room for a tail; every field of the session |
| SessionAnswers.CreationAnswers | beryl-metadata/src/session_registry.rs:967-1032 | the same for a create opening; the session records what a retry is answered from |
| SessionAnswers.CreateRetryAnswers | beryl-metadata/src/session_registry.rs:737-761 | along every run in which the created session stays, an exact retry of its CreateFile is answered with the response it was finished with and any other request as a mismatch; the registry is swept and nothing else |
| SessionAnswers.HeldReplayAnswers | beryl-metadata/src/session_registry.rs:737-761 | the same for any session that records the operation |
| SessionAnswers.FreshCreateAnswers | beryl-metadata/src/session_registry.rs:725-829 | the exact condition of every answer to a CreateFile nobody holds, and every field of the create opening |
| SessionAnswers.MalformedCreateAnswers | beryl-metadata/src/session_registry.rs:725-736 | a CreateFile under another client's identity or without a valid chain of parents is refused and changes nothing |
| SessionAnswers.ChainsAgree | beryl-metadata/src/session_registry.rs:1447-1483 | a chain of parents is accepted exactly if a new file below it has a valid chain, unless the file is one of its own parents |
| SessionAnswers.PublicationAnswers | beryl-metadata/src/session_registry.rs:1128-1169 | a publication begins exactly for a live session that is neither allocating nor publishing; owner and session hold the same frozen state |
| SessionAnswers.RevalidationAnswers | beryl-metadata/src/session_registry.rs:1486-1504 | an owner is shown the session exactly while it holds its publication |
| SessionAnswers.SyncAnswers | beryl-metadata/src/session_registry.rs:1507-1581 | a sync completes exactly for the content the session knows or the generation after it; else an unsubmitted publication is given up and a submitted one keeps its protection |
| SessionAnswers.CancelledPublication | beryl-metadata/src/session_registry.rs:1600-1608 | dropping an unsubmitted owner gives up exactly its own publication, if current |
| SessionAnswers.DroppedPublicationFrees | beryl-metadata/src/session_registry.rs:1600-1608 | then the session publishes again, while identities last |
| SessionAnswers.CommitAnswers | beryl-metadata/src/session_registry.rs:1584-1597 | a commit removes exactly the session that holds its publication |
| SessionAnswers.LookupAnswers | beryl-metadata/src/session_registry.rs:1280-1289 | a lookup returns exactly the live session |
| SessionAnswers.RemovalAnswers | beryl-metadata/src/session_registry.rs:1309-1321 | a removal by epoch removes and returns exactly the session of that epoch |
| SessionAnswers.RenewalAnswers | beryl-metadata/src/session_registry.rs:1324-1413 | a lease is renewed exactly by its client under its epoch while it runs; the deadline never comes earlier and ends at the end of the clock; the exact answer of every refusal |
| Inode.CeilBounds | beryl-metadata/src/inode.rs:229-244 | the block count is the least number of blocks that hold the length |
| Inode.BlockCountExact | beryl-metadata/src/inode.rs:229-244 | a file has a block count exactly if it fits in the most blocks allowed, and then the fewest that hold it |
| Inode.VisibleLengthsPartition | beryl-metadata/src/inode.rs:87-91 | visible block lengths lie between 1 and the capacity and add up to the file length |
| Inode.Validate | beryl-metadata/src/inode.rs:247-263 | the loop accepts a file exactly when layout, block count, ownership, allocation and uniqueness hold |
| Inode.MergedBlocks | beryl-metadata/src/inode.rs:106-145 | the loop returns the old prefix followed by the published blocks, or refuses exactly when one is foreign, unallocated or repeated |
| Inode.AppendExtends | beryl-metadata/src/inode.rs:52-85 | an append keeps all old blocks as a prefix |
| Inode.AppendKeepsBytes | beryl-metadata/src/inode.rs:106-145 | after an append every old byte offset is on the same block at the same place |
| Inode.ReplaceUsesNewBlocks | beryl-metadata/src/inode.rs:106-145 | a replacement shares no block with the old layout |
| Inode.MergedSuffix | beryl-metadata/src/inode.rs:106-145 | the merged blocks from the start index on are the published ones and number what the target size needs |
| Inode.PayloadExact | beryl-metadata/src/inode.rs:52-91 | a payload is well formed exactly if its blocks hold, one by one, the bytes of the target from the first new one on |
| Inode.MergeExact | beryl-metadata/src/inode.rs:106-145 | it merges exactly if its blocks are allocated blocks of the inode, none twice, and continue the expected file or replace all of it; what the merged list then is |
| Inode.MergeKeepsFileValid | beryl-metadata/src/inode.rs:106-145 | a successful merge of a valid file yields a valid file |
| Inode.PrepareKeeps | beryl-metadata/src/raft/state_machine/write.rs:140-178 | preparing a publication keeps the file valid, its evidence consistent and its generation from decreasing; when it is accepted and what it makes is `Inode.PublishAcceptedExact` |
| Inode.PublishExact | beryl-metadata/src/raft/state_machine/write.rs:140-178 | a SyncWrite changes the file exactly if it carries its epoch, generation and length and content that is not visible yet; the generation becomes the expected one plus one |
| Inode.PublishAcceptedExact | beryl-metadata/src/raft/state_machine/write.rs:140-178 | it is accepted exactly then or if its content is visible in the expected or the next generation; a publication of another epoch or generation is refused |
| Inode.CommitExact | beryl-metadata/src/raft/state_machine/write.rs:22-223 | a commit of an unrecorded identity is applied exactly if it expects the file as it is or as published, with an epoch left; then the epoch moves on and the request is recorded; a recorded one changes nothing |
| Inode.ResolveExact | beryl-metadata/src/inode.rs:149-185 | a recorded identity is answered with the recorded generation exactly for the recorded request with the visible blocks; a request that differs in any recorded field is refused as another one |
| Inode.LeaseExact | beryl-metadata/src/raft/state_machine/write.rs:22-223 | an allocation or lease change of the current epoch moves exactly its own counter by one; one of another epoch changes nothing |
| Inode.ApplyKeeps | beryl-metadata/src/raft/state_machine/write.rs:22-223 | every ordered mutation keeps the file valid and its commit evidence consistent, and moves no counter backwards |
| Inode.DurableRuns | beryl-metadata/src/raft/state_machine/write.rs:22-223 | so does every sequence of them |
| Inode.EvidenceNeverDisagrees | beryl-metadata/src/inode.rs:149-185 | in every run from a new file no replay finds evidence that contradicts the file |
| Inode.AcquiredEpochsIncrease | beryl-metadata/src/raft/state_machine/write.rs:48-84 | leases acquired one after the other in a run carry strictly increasing epochs |
| Inode.ContentChangesExact | beryl-metadata/src/raft/state_machine/write.rs:22-223 | a mutation changes content or evidence exactly when it publishes new content or records a new commit |
| Inode.QuietKeepsContent | beryl-metadata/src/raft/state_machine/write.rs:22-223 | runs of allocations, lease changes, refused or repeated publications and replayed commits leave content and evidence alone |
| Inode.CommitVisible | beryl-metadata/src/inode.rs:93-102 | an applied commit is visible as published |
| Inode.CommitReplayResolves | beryl-metadata/src/inode.rs:149-185 | after a commit and any later operations that rewrite nothing, the same publication and identity resolve to the recorded generation |
| Inode.ResolveUnderLaterLease | beryl-metadata/src/inode.rs:149-185 | how any publication resolves depends on content and evidence alone |
| Inode.VisibleDeterminesBlocks | beryl-metadata/src/inode.rs:93-102 | two publications that differ in blocks only and both match the visible file are equal up to the tail of a no-op append |
| Inode.ReplayAcceptsOnlySamePayload | beryl-metadata/src/inode.rs:149-185 | after a commit and any later operations that rewrite nothing, a publication is accepted for its identity exactly if it is the recorded request with matching blocks, and then prepares the same content from the base file |
| Inode.NoOpAppendUnchanged | beryl-metadata/src/inode.rs:52-85 | a no-op append prepares the same file with or without its unchanged tail |
| Planner.RequestedRange | beryl-client/src/planner.rs:42-62 | exactly the part of a request inside the file; empty exactly for an empty request or one at or past the end, refused exactly when its end overflows 64 bits or the part 32 bits |
| Planner.Normalize | beryl-client/src/planner.rs:64-103 | the first loop returns the first location error, else the locations that touch the range in order |
| Planner.LocationErrorExact | beryl-client/src/planner.rs:64-103 | a location is refused exactly if it is empty, overflows, is foreign, malformed or held by nobody; one that lacks only Workers asks for a refresh |
| Planner.PlanBlockReads | beryl-client/src/planner.rs:64-166 | sorting and the cursor loop compute the specified plan |
| Planner.CoverTiles | beryl-client/src/planner.rs:106-165 | what the cursor loop emits tiles the range from the cursor on |
| Planner.CoverReads | beryl-client/src/planner.rs:106-165 | every emitted read lies in a location, at its block offset |
| Planner.PlanTilesRange | beryl-client/src/planner.rs:64-166 | a plan is made only from usable locations; it tiles the range without gap or overlap, each piece inside a given location with the right block offset |
| Planner.CoverSucceeds | beryl-client/src/planner.rs:106-165 | a sorted chain of locations that covers the range is planned |
| Planner.DisjointCoverPlans | beryl-client/src/planner.rs:64-166 | usable locations that do not overlap and cover the range always yield a plan |
| Planner.PlanIgnoresOrder | beryl-client/src/planner.rs:104-104 | with distinct offset and block index the plan does not depend on the order of the locations |
| Sorting.SortPermutes | beryl-client/src/planner.rs:104-104 | sorting by key permutes |
| Sorting.SortSorted | beryl-client/src/planner.rs:104-104 | sorting by key sorts |
| Sorting.SortedUnique | beryl-metadata/src/placement.rs:336-357 | with distinct keys the sorted arrangement is unique |
| ReadLayouts.PlanHead | beryl-client/src/api/reader.rs:385-394 | a plan starts with the first sorted location, which holds the start of the range |
| ReadLayouts.FindDistinct | beryl-client/src/api/reader.rs:395-401 | with distinct locations the search finds the planned one |
| ReadLayouts.NewPlanHead | beryl-client/src/api/reader.rs:385-411 | with distinct locations the cached block is the one the plan starts with and contains the offset |
| ReadLayouts.NewPlanContainsExact | beryl-client/src/api/reader.rs:385-411 | the cached block contains the offset it was made for exactly when the first location listed for the planned block at its offset reaches past it |
| ReadLayouts.ReplanAgrees | beryl-client/src/api/reader.rs:408-417 | planning any later part of the cached block from the cut-down layout equals planning it from the whole layout |
| ReadLayouts.TwiceListedMissesCursor | beryl-client/src/api/reader.rs:385-411 | a layout with a block listed twice, the shorter entry first, for which the cached block misses the offset |
| ReadLayouts.LongerFirstKeepsCursor | beryl-client/src/api/reader.rs:385-411 | the same layout with the longer entry first, for which it does not |
| Reader.ReadBlockRangesInto | beryl-client/src/worker/client.rs:36-72 | succeeds exactly when the plan has the buffer's length, is consistent and every read is served, and then leaves the served bytes one after the other; nothing outside the buffer changes; a failure is that of a failed read |
| Reader.ServedSlice | beryl-client/src/worker/client.rs:54-72 | the served bytes of a tiling plan are the slice of the file it tiles |
| Reader.AfterWorkerFailure | beryl-client/src/api/reader.rs:314-351 | another attempt is made exactly if one is left, nothing fails in between and the failure is a retryable transport failure, asks for a retry, or asks for a refresh of a kind the reader can renew; the layout is dropped exactly for a refresh; else that failure, or the one in between, is returned |
| Reader.FreshCache | beryl-client/src/api/reader.rs:385-411 | a plan made from a faithful layout is a block of the file that contains the cursor |
| Reader.HealthyPlans | beryl-client/src/planner.rs:168-196 | a layout of the opened authority with valid, disjoint locations that cover the file plans every range of it |
| Reader.CachedPlans | beryl-client/src/api/reader.rs:408-417 | planning a part of the cached block never fails |
| Reader.FileReader.constructor | beryl-client/src/api/reader.rs:32-40 | a new reader stands at 0 and has delivered nothing |
| Reader.FileReader.ServeRange | beryl-client/src/api/reader.rs:221-246 | a range is planned exactly when the layout allows; planned and served it is the file's bytes |
| Reader.FileReader.ReadRangeStep | beryl-client/src/api/reader.rs:264-311 | the attempt loop returns on its last attempt; a success leaves exactly the range in the buffer; it succeeds whenever one of the allowed attempts meets a healthy layout and serving Workers and all failures before it are recoverable |
| Reader.FileReader.ReadSequentialStep | beryl-client/src/api/reader.rs:202-261 | the attempt loop returns on its last attempt; a success reads at least one byte of the file from the offset, zero only for an empty buffer or end of file; when it recovers in the same sense it is refused exactly when the offset plus the bounded step overflows |
| Reader.FileReader.Read | beryl-client/src/api/reader.rs:65-86 | everything delivered so far is the file up to the position; a failure leaves the position; when the environment recovers within the allowed attempts it is refused exactly when the offset plus the bounded step overflows |
| Reader.FileReader.ReadAt | beryl-client/src/api/reader.rs:91-102 | exactly the bounded part of the request is read, the position is untouched; when the environment recovers within the allowed attempts it is refused exactly when the offset plus the bounded step overflows |
| Reader.FileReader.ReadExactAt | beryl-client/src/api/reader.rs:108-139 | the whole buffer is the file's bytes, or a range past the end is refused with the buffer untouched; when the environment recovers within the allowed attempts nothing else is refused |
| Reader.FileReader.ReadToEnd | beryl-client/src/api/reader.rs:145-191 | exactly the remaining bytes with the position at the end, or the position unchanged; the limit is checked first; when the environment recovers within the allowed attempts only the limit refuses |
| BlockReport.StepKeeps | beryl-worker/src/report.rs:39-115 | every operation keeps the tracker standing for the change log |
| BlockReport.RunStandsForLog | beryl-worker/src/report.rs:39-115 | in every interleaving each change is still dirty, acknowledged, under a cut, each at its revision or later, or continuity is flagged lost; the map stays within the bound; with acknowledgements of recorded revisions it is exactly the pending part of the log until more than the bound were pending at once |
| BlockReport.RecordPending | beryl-worker/src/report.rs:39-56 | recording adds exactly its block to the pending part of the log |
| BlockReport.RecordExact | beryl-worker/src/report.rs:39-56 | overflow is flagged exactly when more than the bound are pending |
| BlockReport.AcknowledgeExact | beryl-worker/src/report.rs:91-105 | acknowledging drops exactly what is pending at the acknowledged revision or before |
| BlockReport.IssuedCutDropsNothing | beryl-worker/src/report.rs:108-115 | acknowledging a full snapshot at an issued cut drops nothing |
| BlockReport.DropCovered | beryl-worker/src/report.rs:91-105 | the acknowledge loop leaves exactly the uncovered entries |
| BlockReport.Collect | beryl-worker/src/report.rs:79-83 | iteration in any order lists the dirty map without repetition |
| BlockReport.BlockReportChangeTracker.constructor | beryl-worker/src/report.rs:31-35 | a new tracker has been told nothing |
| BlockReport.BlockReportChangeTracker.Record | beryl-worker/src/report.rs:39-56 | the group becomes what its operations make it; other groups are untouched |
| BlockReport.BlockReportChangeTracker.BeginFullSnapshot | beryl-worker/src/report.rs:63-70 | the same, returning the revision of the cut |
| BlockReport.BlockReportChangeTracker.Snapshot | beryl-worker/src/report.rs:73-87 | exactly the dirty blocks, each once, ascending by inode and then by block index; refused exactly when continuity is lost |
| BlockReport.BlockReportChangeTracker.Acknowledge | beryl-worker/src/report.rs:91-105 | the same for an acknowledged batch |
| BlockReport.BlockReportChangeTracker.AcknowledgeFull | beryl-worker/src/report.rs:108-115 | the same for a full snapshot, reporting whether continuity holds |
| Attempts.ExecuteAttempts | beryl-client/src/metadata/client.rs:551-662 | the loop makes the specified calls and remembers exactly whether one was ambiguous |
| Attempts.ExecuteMutation | beryl-client/src/metadata/client.rs:490-527 | at most the allowed calls; in every sequence of outcomes a non-replayable mutation is never called again after an ambiguous transport failure, and an error of known outcome had none; an error has unknown outcome exactly when some call may have taken effect or a flagged error stopped the run between calls |
| Attempts.RunCalls | beryl-client/src/metadata/client.rs:551-662 | one call an attempt, in order; the result is the last call's, a success with refused authority a malformed success, a failure that ends the run itself, and otherwise whatever first kept the next attempt from being made |
| Attempts.CallsExact | beryl-client/src/metadata/client.rs:551-685 | the first call goes to the starting group; each further one is made exactly where the failure before it licenses it and attempts are left, to the same group for a retry and to the refreshed one for a refresh |
| Attempts.KnownOutcome | beryl-client/src/metadata/client.rs:490-527 | a failed run is ambiguous or flagged only if, and with flags from received responses exactly if, some call may have taken effect or a flagged error stopped it between calls |
| Attempts.StoppedByMsync | beryl-client/src/metadata/client.rs:664-685 | a run is stopped between calls by a flagged error exactly when the last call was refused for stale state and the Msync that followed failed with one |
| Attempts.UnknownOutcomeExact | beryl-client/src/metadata/client.rs:490-527 | a failed mutation has unknown outcome exactly when some call may have taken effect or that Msync was flagged |
| Attempts.RefusedYetUnknown | beryl-client/src/metadata/client.rs:664-685 | a mutation whose one call was refused outright and which is reported with unknown outcome |
| Attempts.AppliedIsLast | beryl-client/src/runtime/retry.rs:21-45 | under the non-replayable policy only the last call is ambiguous, and with flags from received responses only the last may have taken effect |
| Placement.PickTier | beryl-metadata/src/placement.rs:239-250 | the walk over the tiers finds the fastest one with room and whether any is persistent |
| Placement.CollectCandidates | beryl-metadata/src/placement.rs:236-254 | one candidate for each Worker with room, on that tier |
| Placement.SelectWorkers | beryl-metadata/src/placement.rs:266-284 | the selection loop takes one replica a Worker until the target is reached |
| Placement.ChooseWriteTargets | beryl-metadata/src/placement.rs:221-291 | the loops compute the plan that `Placement.WritePlacementBest` characterises: candidates, order, selection and status |
| Placement.ChooseLiveTargets | beryl-metadata/src/placement.rs:188-219 | the three filters and their statuses as specified |
| Placement.ComputeStableOrder | beryl-metadata/src/placement.rs:413-430 | the loops compute the specified hash |
| Placement.FastestTierRanksBest | beryl-metadata/src/placement.rs:432-439 | the tier picked has room, is persistent, and no other persistent tier with room is faster |
| Placement.PreferenceMeans | beryl-metadata/src/placement.rs:336-357 | sorting by the write key prefers the faster tier, then the closer Worker, then the smaller hash, then the smaller id |
| Placement.ReadPreferenceMeans | beryl-metadata/src/placement.rs:318-334 | sorting by the read key prefers the closer Worker, then the smaller hash, then the smaller id |
| Placement.LocalityMeans | beryl-metadata/src/placement.rs:393-411 | a Worker's locality is at most another's exactly if it is at least as close to the caller: same host or address first, then zone, rack and region |
| Placement.FreeOnExact | beryl-metadata/src/placement.rs:297-304 | the free bytes of a tier are the most any of its entries reports |
| Placement.EligibleExact | beryl-metadata/src/placement.rs:188-219 | the filters pass exactly the live Workers of the group, then those not excluded, then those that know the format |
| Placement.AbleIn | beryl-metadata/src/placement.rs:236-254 | the candidates are exactly the eligible Workers with room, each on its fastest tier with room |
| Placement.AbleExact | beryl-metadata/src/placement.rs:188-254 | written on the reports: the candidates are exactly the suited Workers that report room for a block, each on the fastest such tier other than memory |
| Placement.AbleApart | beryl-metadata/src/placement.rs:266-284 | unique Worker ids give candidates with distinct ids |
| Placement.SelectTakes | beryl-metadata/src/placement.rs:266-284 | with one candidate a Worker the selection is the first ones in order |
| Placement.WritePlacementBest | beryl-metadata/src/placement.rs:221-291 | with unique ids exactly the best min(target, able) Workers are chosen, best first: a faster tier first, then the closer Worker, then the smaller hash and id; at least one replica is wanted; the status is Ok exactly when the target is reached |
| Placement.FailureStatusExact | beryl-metadata/src/placement.rs:188-264 | without a candidate the status says, on the reports, that nobody is live, all are excluded, nobody knows the format, nobody has a tier that keeps blocks, or nobody has room on one, in this order |
| Placement.PlacementIgnoresOrder | beryl-metadata/src/placement.rs:336-357 | with unique ids neither replicas nor status depend on the order of the Workers |
| Placement.ChooseRead | beryl-metadata/src/placement.rs:153-186 | the loop collects the holders, sorts them and reports whether there is one |
| Placement.HoldersExact | beryl-metadata/src/placement.rs:153-177 | a Worker is a holder exactly when its first adequate report names the live run of the first view of its id; none is listed twice |
| Placement.OldReportHidesHolder | beryl-metadata/src/placement.rs:153-177 | a live Worker with an adequate report of its current run that is not offered, for an earlier report of an old run |
| Placement.ReadReplicasExact | beryl-metadata/src/placement.rs:153-186 | the replicas offered are exactly the holders, the closer Worker first, then the smaller hash and id, all live in the group, with the run and endpoint of the view |
| Readiness.StepKeeps | beryl-metadata/src/readiness.rs:106-155 | every atomic step of any caller keeps the gate's invariant |
| Readiness.ReachedHolds | beryl-metadata/src/readiness.rs:106-155 | every interleaving keeps it |
| Readiness.ShutdownIsFinal | beryl-metadata/src/readiness.rs:139-155 | once a shutdown has returned the gate is not ready, its state is Shutdown and its metric is 0, forever and in every interleaving |
| Readiness.UnlockedGateIsSettled | beryl-metadata/src/readiness.rs:106-136 | until a shutdown writes the state, whoever finds the lock free finds state, flag and metric in agreement |
| Readiness.AloneExact | beryl-metadata/src/readiness.rs:106-155 | a call that nothing interleaves with leaves the gate ready, or not ready for its reason, before a shutdown, and as it was after one; a shutdown closes it and returns |
| Admission.StepKeeps | beryl-common/src/grpc_server.rs:248-283 | every single acquisition, refusal or release conserves all permits |
| Admission.ReachedConserves | beryl-common/src/grpc_server.rs:164-199 | so does every interleaving |
| Admission.ReachedWithinBounds | beryl-common/src/grpc_server.rs:92-112 | total, regular and connection bounds hold, and all permits are back once no request is left |
| Admission.AdmittedExact | beryl-common/src/grpc_server.rs:248-283 | a request that nothing interleaves with is admitted exactly if a connection permit, a total permit and, for a regular one, a regular permit are free, and takes one of each; a control request needs no regular one |
| Admission.ControlReserveExact | beryl-common/src/grpc_server.rs:248-283 | with no total permit free, control requests hold the reserve exactly when no more regular requests are half released than regular permits are free or held by half admitted ones |
| Admission.ReserveOrHalfReleased | beryl-common/src/grpc_server.rs:248-283 | whenever a request is refused globally, control holders and half released regular requests together reach the reserve |
| Admission.ControlRefusedBelowReserve | beryl-common/src/grpc_server.rs:164-199 | a control request can be refused while control requests hold less than the reserve |

## Left out

- Raft, RocksDB, the mount table, the Worker store and the client's write path: only the ordered file mutations are modelled, as pure steps on one file.
- Other inode kinds, directories and attribute times: they take no part in publication.
- gRPC, HTTP and task lifecycles, sleeps and back-off lengths: an expired deadline is a failure the environment may return at any point.
- Weak memory: the steps of the readiness gate are sequentially consistent.
- Configuration parsing, metrics other than the readiness gauge, logging, error texts and wire conversions.
- Placement statistics: they are reported with a plan and decide nothing but the lack of a persistent tier, which is modelled.
- Byte encoding of group names in the placement hash: names are taken as one byte a character.
- The order in which hash maps and hash sets iterate: any order is allowed wherever the source iterates one.
- Registry locking: each registry and tracker method holds one lock throughout, so runs are sequences of whole calls.
- Identities of dropped publications: the registry carries, for the proofs only, the snapshot each issued publication holds.
- SessionGuards.StaleReservationIsInert: assumes that no activation of the epoch succeeds again for the inode; `Inode.AcquiredEpochsIncrease` is why durable epochs do not repeat.
- Reader.FileReader.ReadSequentialStep: assumes that a layout with the opened inode, generation and length lists no block twice at one offset and places stored bytes where they belong, and that a Worker that serves a read fills the buffer.
- Attempts.ExecuteMutation: the exact outcome assumes of the calls made that a flagged error is one the client built from a received response, as all constructors of flagged errors on the Metadata path do.
- Attempts.UnknownOutcomeExact: also assumes that the endpoint and group tables, the refresh hints and the deadline never return a flagged error, as their errors are plain local or transport ones; the Msync is not assumed so.
- BlockReport.BlockReportChangeTracker.Record: a revision counter at its 64-bit maximum, on which the source panics, is excluded.
- Placement.WritePlacementBest: says nothing about Worker lists in which one group repeats an id.
