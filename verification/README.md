# TuringOS block-device stack, tmpfs, network queues, log, sensor and EEPROM: a verified model

The project models the parts of TuringOS whose behaviour is hardest to see from the code, and proves
what they promise over every run, every input and every device answer.

* **Block devices** (`pkg/libblock-device`). Scheduler, clients and device form one step system
  (`block_system.dfy`): a device accepts, refuses, is busy, or completes requests whenever it likes, also
  inside the submit call; clients queue requests, are reset, suspended, shut down, added and removed.
  `block_accounts.dfy` and `block_runs.dfy` account for every request and every DMA mapping, `block_order.dfy`
  says in which order they are served, `block_gone.dfy` is about clients that disappeared,
  `block_progress.dfy` bounds the passes of `schedule()` and `block_termination.dfy` says exactly when it
  ends, `block_wakeup.dfy` is about wake-ups, `block_fairness.dfy` and `block_turns.dfy` are about turns in
  one call and over many, and `request_scheduler.dfy` is the imperative scheduler, proved to take exactly the
  steps of the system.
  `virtio_client.dfy` and `part_device.dfy` follow one request down to disk sectors. `partition_scan.dfy`,
  `mbr_table.dfy`, `partition_reader.dfy`, `errand.dfy` and `device_names.dfy` are the partition scan;
  `partition_fallback.dfy`, `partition_chain.dfy` and `partition_labels.dfy` say what a scan makes of the
  sectors it reads. `connections.dfy` and `device_manager.dfy` are the connection tree, and
  `connection_names.dfy` says who is connected to what.
* **tmpfs** (`pkg/tmpfs`). A directory tree that behaves as a map from component lists to nodes, with exact
  answers for every operation, and a growable buffer that behaves as a sequence of bytes.
* **netd** (`pkg/netd`). The receive and transmit virtqueues (section 2.7 of VIRTIO 1.2) with 16-bit
  indices, and the Internet checksum (section 1 of RFC 1071).
* **klog**, **ds18b20**, **at24c02**. The log ring and its flush, the 1-Wire CRC-8, the EEPROM driver.

State machines are values with a `Step` function and lemmas about every `Run`; code that updates fields in
place is a class whose methods are tied to those functions by `Abs()`, `State()` or `Content()`.

## What turned out not to hold

The lemmas named here give the failing cases and the conditions under which the property does hold.

* A request dearer than its client's weight keeps `schedule()` going for ever (`OversizedNeverEnds`,
  `DearRequestNeverEnds`, `DearRun`); a call ends for every device if and only if every client that has or will
  come to such a request waits for a device that cannot become free during the call (`EndsIffAffordable`,
  `ScheduleBound`).
* Turns go round fairly inside one call; but each call leaves out, once, the client that the call before it
  started with (`NextCallLeavesOneOut`, `TurnsGoRound`).
* Suspending or shutting down a client fails its pending request but triggers nothing, so requests queued
  behind it can stay unserved (`SuspendStrandsQueue`, `HaltStrands`).
* A second look for dead clients while a removal is deferred removes the client early, and the deferred
  removal then fails or removes the next client, which is alive (`EarlyCheckFaults`, `ImpatientRun`,
  `EarlyCheckHitsSuccessor`, `SuccessorRun`); that cannot happen if dead clients are only looked for while no
  removal is deferred (`CheckIsSafe`, `PatientRunIsSound`).
* `poll` executes its function once more than its documentation says (`PollInVain`, `DocumentedLimit`); the
  model follows the code.
* A GUID table whose array the device never accepts to read still counts as found (`UnreadTableRun`,
  `UnreadTableKept`).
* A boot-record entry of a used kind with start and length zero becomes a partition of 2^32 sectors
  (`ZeroEntryIsListed`, `SpanIsExact`).
* A partition refuses an empty request that its client accepts, right behind its end (`EmptyReadBehindEnd`,
  `EmptyDiscardBehindEnd`, `RefusedOnlyIfEmpty`, `DiscardContained`).
* A tmpfs open that fails because no handle can be made has created or truncated the file all the same
  (`FailedOpen`).
* A vectored tmpfs read stops at an empty element (`EmptyElementStopsRead`, `VectoredReadIsMaximal`).
* Doubling the tmpfs buffer capacity does not end for more than 2^63 bytes, so two bytes written at the
  largest offset never return (`FarWriteNeverEnds`, `GrowingEndsIff`).
* Two log flushes at the same time can write an entry twice (`OverlapDuplicates`, `AppendKeepsOrderIff`).
* Reading 256 bytes from the EEPROM reads none (`WholeMemoryReadsNothing`, `ReadBackIff`).
* The transmit path narrows the packet length to 16 bits before it compares it (`LongPacketAccepted`,
  `AcceptedFitsIff`).
* The checksum register can lose carries for more than 131074 bytes (`LongBufferMiscounted`, `NoOverflow`,
  `LostCarriesHarmlessIff`).
* The comment at `pkg/ds18b20/lib/ds18b20.cc:29-30` calls the CRC not reflected; the code is the reflected
  form, and the model follows the code.

## Model

| member | source | states |
|---|---|---|
| BlockAccounts.StepAccounted | pkg/libblock-device/include/virtio_client.h:184-296 | every event of the system conserves every request and every DMA mapping: what came in equals what is held plus what left |
| BlockAccounts.StepValid | pkg/libblock-device/include/scheduler.h:102-213 | every event keeps: charged cost at most the weight, in-flight counter equal to the requests held by the device modulo 2^32, busy only with a pending request, no pending request of a gone client |
| BlockAccounts.StartConserves | pkg/libblock-device/include/virtio_client.h:184-239 | taking a request from the queue makes it pending, finalizes it or gives it up, exactly one of these, and releases what was mapped when building fails |
| BlockAccounts.CompleteAtAccounted | pkg/libblock-device/include/virtio_client.h:241-257 | a completion moves one request out of the device and accounts for it once, whatever state its client is in |
| BlockAccounts.PerformConserves | pkg/libblock-device/include/virtio_client.h:262-296 | reset, shutdown, suspend and resume lose no request and no mapping |
| BlockRuns.RunInv | pkg/libblock-device/include/scheduler.h:102-326 | the invariants and all accounts hold after every run from the empty system |
| BlockRuns.EveryRequestHasOneFate | pkg/libblock-device/include/virtio_client.h:184-257 | over every run each request that entered a queue is in exactly one place: with its client, or gone in exactly one of three ways |
| BlockRuns.FinalizedExactlyOnce | pkg/libblock-device/include/virtio_client.h:184-257 | a request is finalized at most once; unless it is malformed, or its client disappeared or was reset after it arrived, it is still held or finalized, exactly once |
| BlockRuns.MappingsReleasedOnce | pkg/libblock-device/include/virtio_client.h:354-364 | each non-empty mapping is unmapped exactly once for each time it was made, or still held by a live request |
| BlockRuns.InFlightIsExact | pkg/libblock-device/include/virtio_client.h:495-541 | the in-flight counter is the number of requests the device holds modulo 2^32, also when the device completes before the submit call returns; a client is only removed with none |
| BlockOrder.ServedInOrder | pkg/libblock-device/include/scheduler.h:181-273 | over every run what the device holds for a client, then its pending request, then its queue are in the order of arrival |
| BlockGone.StepSilent | pkg/libblock-device/include/virtio_client.h:241-257 | no event finalizes a request of a client that is gone once the event has happened: no completion, also none inside a submit call, no scheduling pass, and not the disappearance itself |
| BlockGone.GoneNeverAnswered | pkg/libblock-device/include/virtio_client.h:241-296 | over every run, once a client has disappeared no request of it is finalized any more, whatever the device still completes |
| BlockGone.LeaveIsForGood | pkg/libblock-device/include/virtio_client.h:262-296 | over every run a client is in the state of a gone client if and only if it has disappeared before |
| BlockGone.ResetStartsAfresh | pkg/libblock-device/include/virtio_client.h:128-134 | a reset answers nothing, leaves what the device holds, and leaves the client with no request and no way to have one before its queue is set up |
| BlockProgress.ScheduleClientTurn | pkg/libblock-device/include/scheduler.h:231-273 | one call reports progress only if work shrank, the client was charged its whole weight, or its request is unaffordable; no progress means the client is quiet |
| BlockProgress.IterateDecreases | pkg/libblock-device/include/scheduler.h:299-325 | each pass of the endless loop lowers a lexicographic measure of work left, charge, recheck flag and distance, whatever the device answers |
| BlockProgress.ScheduleEnds | pkg/libblock-device/include/scheduler.h:287-326 | while no client has or comes to a request dearer than its weight, the passes are bounded by the backlog and the requests that arrive meanwhile |
| BlockProgress.ScheduleBound | pkg/libblock-device/include/scheduler.h:287-326 | a whole call makes at most (4w+1)n + 4n·a passes for w requests, n clients and a arrivals |
| BlockTermination.OversizedNeverEnds | pkg/libblock-device/include/scheduler.h:185-194 | with a pending request dearer than its client's weight no sequence of device answers ends the loop |
| BlockTermination.DearRequestNeverEnds | pkg/libblock-device/include/scheduler.h:181-326 | nor does it end, under a device that never answers busy, when such a request is anywhere in a served queue |
| BlockTermination.StaysUnfreeable | pkg/libblock-device/include/scheduler.h:152-213 | a domain for which nobody has a request that could free it keeps its busy marks through every turn, whatever the device answers |
| BlockTermination.EndlessRuns | pkg/libblock-device/include/scheduler.h:152-326 | once such a mark can be cleared by somebody's turn, a client behind it that cannot pay keeps the call going for any number of passes |
| BlockTermination.EndsIffAffordable | pkg/libblock-device/include/scheduler.h:181-326 | a call ends for every device if and only if each client can pay for all it has and will come to, or is marked busy for a domain that cannot become free during the call; with no busy marks, if and only if all can pay |
| BlockTermination.DearRun | pkg/libblock-device/include/scheduler.h:181-326 | a run from the empty system after which the next call does not end |
| BlockProgress.IterateQuiet | pkg/libblock-device/include/scheduler.h:287-326 | when the loop ends, every client has nothing pending and nothing new, or waits for a busy device, or another run is triggered |
| BlockWakeup.NoLostWakeup | pkg/libblock-device/include/scheduler.h:135-213 | over every run, between server-loop events a pending request that is not marked busy has a scheduler run due |
| BlockWakeup.HaltStrands | pkg/libblock-device/include/virtio_client.h:262-296 | an action leaves a queued request behind if and only if it halts a client with requests queued behind a pending one and no run is due |
| BlockWakeup.CompletionWakes | pkg/libblock-device/include/scheduler.h:152-170 | a completion frees and triggers every client waiting in the same notification domain |
| BlockWakeup.CompletionWakesOnly | pkg/libblock-device/include/scheduler.h:152-170 | it clears the marks of that domain and no other, and triggers if and only if there were any |
| BlockWakeup.StuckRequestIsAwaited | pkg/libblock-device/include/scheduler.h:151-213 | if the device is busy only while something of the domain is in flight, every stuck request has a request in flight whose completion reschedules it |
| BlockWakeup.QuiescentMeansServed | pkg/libblock-device/include/scheduler.h:135-326 | then, unless a halt left requests behind, an idle system has served every request |
| BlockWakeup.SuspendStrandsQueue | pkg/libblock-device/include/virtio_client.h:262-296 | a run of an honest device that leaves a queued request unserved after suspend and resume |
| BlockFairness.ScheduleIsFair | pkg/libblock-device/include/scheduler.h:287-326 | throughout a call turns go round in list order and no turn submits more than its client's weight |
| BlockFairness.OneTurnEach | pkg/libblock-device/include/scheduler.h:299-325 | between two consecutive turns of a client in one call, which has none in between, every other client has exactly one |
| BlockFairness.RoundRobinSubmitsOne | pkg/libblock-device/include/scheduler.h:340-350 | with unit weights and costs a turn submits at most one request |
| BlockFairness.ScheduleClientCharges | pkg/libblock-device/include/scheduler.h:181-213 | what one call submits is covered by what it charges |
| BlockTurns.TurnsGoRound | pkg/libblock-device/include/scheduler.h:287-326 | over every run in which clients neither come nor go, each turn is followed by the next client's, except that a new call leaves out, once, exactly the client the call before it started with |
| BlockTurns.EveryCallServesAll | pkg/libblock-device/include/scheduler.h:299-325 | every call that returns has given every client at least one turn |
| BlockTurns.NextCallLeavesOneOut | pkg/libblock-device/include/scheduler.h:313-320 | a run of two calls over two clients with the turns 0, 1 and 1, 0 |
| RequestScheduler.Scheduler.AddClient | pkg/libblock-device/include/scheduler.h:102-118 | refines the step that adds a client at the end and restarts the round |
| RequestScheduler.Scheduler.RemoveClient | pkg/libblock-device/include/scheduler.h:120-128 | refines the step that removes the client with this identity |
| RequestScheduler.Scheduler.ClientInvalidate | pkg/libblock-device/include/scheduler.h:135-149 | clears busy mark and charge of the one client and fails or drops its pending request |
| RequestScheduler.Scheduler.ClientIdle | pkg/libblock-device/include/scheduler.h:152-170 | clears exactly the busy marks of the domain and triggers if and only if there were any |
| RequestScheduler.Scheduler.TaskFinished | pkg/libblock-device/include/virtio_client.h:241-257 | refines the completion step |
| RequestScheduler.Scheduler.HandlePending | pkg/libblock-device/include/scheduler.h:181-213 | refines preemption, submission, busy and error answers, with completions inside the call |
| RequestScheduler.Scheduler.ScheduleClient | pkg/libblock-device/include/scheduler.h:231-273 | refines the scheduling of one client and returns its progress |
| RequestScheduler.Scheduler.StartRequest | pkg/libblock-device/include/virtio_client.h:184-239 | refines taking, checking, failing or keeping one request |
| RequestScheduler.Scheduler.Pass | pkg/libblock-device/include/scheduler.h:299-325 | one pass of the loop is one iteration step of the system |
| RequestScheduler.Scheduler.Schedule | pkg/libblock-device/include/scheduler.h:287-326 | terminates against every device, takes only steps of the system, and leaves every client quiet after fair turns |
| VirtioClient.ReleaseDma | pkg/libblock-device/include/virtio_client.h:354-364 | unmaps exactly the non-empty blocks, in order |
| VirtioClient.AppendData | pkg/libblock-device/include/virtio_client.h:395-456 | one descriptor is checked, mapped and appended, or the whole request does not fit; either way the mappings made are those that will be released |
| VirtioClient.BuildBlocks | pkg/libblock-device/include/virtio_client.h:395-456 | succeeds if and only if all descriptors fit; on every path the mappings made are those that will be released |
| VirtioClient.BuildInoutBlocks | pkg/libblock-device/include/virtio_client.h:366-457 | accepts a read or write if and only if it is acceptable, and then carries its descriptors in order |
| VirtioClient.CheckRange | pkg/libblock-device/include/virtio_client.h:625-678 | the checks on one range, in the order of the code, give the verdict and the block |
| VirtioClient.JudgedByRules | pkg/libblock-device/include/virtio_client.h:625-678 | the verdict in the client's units of 512 bytes: accepted if and only if aligned, within the capacity, without flags the command does not know and within the limit of its own kind of command; ENOSYS if and only if the flags are at fault |
| VirtioClient.AcceptableIffPermitted | pkg/libblock-device/include/virtio_client.h:568-682 | the same for whole commands |
| VirtioClient.AppendRanges | pkg/libblock-device/include/virtio_client.h:568-682 | appends one block per item, or stops at the first item that is not permitted with the error that item calls for |
| VirtioClient.AppendCmd | pkg/libblock-device/include/virtio_client.h:568-682 | the ranges of one descriptor are checked and appended, or the whole command is unacceptable |
| VirtioClient.BuildDiscardBlocks | pkg/libblock-device/include/virtio_client.h:568-682 | accepts a discard or write-zeroes command if and only if it is writable, negotiated, of sector 0, in whole items within the limit of segments, and every item is permitted in the client's units; then each block is the bytes asked for, unmapped if and only if zeroes are written, the item asked for it and the device may; the error of a refusal is that of the first item not permitted |
| PartDevice.InoutData | pkg/libblock-device/include/part_device.h:172-192 | passes a request on if and only if it fits the partition, shifted by its first sector |
| PartDevice.DiscardRanges | pkg/libblock-device/include/part_device.h:49-74 | passes ranges on if and only if every one fits, shifted by the first sector |
| PartDevice.AcceptableInBytes | pkg/libblock-device/include/virtio_client.h:366-457 | a read or write is acceptable if and only if, in bytes, it is whole sectors in few enough mappable pieces within the capacity, and no write to a read-only device |
| PartDevice.InoutContained | pkg/libblock-device/include/part_device.h:172-192 | every block of an accepted read or write lies inside the partition on disk, right after its predecessor |
| PartDevice.InoutInPlace | pkg/libblock-device/include/virtio_client.h:366-457 | and at the byte position that the request asked for after conversion from 512-byte sectors |
| PartDevice.RefusedOnlyIfEmpty | pkg/libblock-device/include/part_device.h:172-192 | a request accepted by the client is refused by the partition if and only if it is empty and starts behind the end |
| PartDevice.DiscardContained | pkg/libblock-device/include/part_device.h:49-74 | every accepted range lies inside the partition at the right place; refused if and only if empty and right behind the end |
| PartDevice.TransferOnPartition | pkg/libblock-device/include/virtio_client.h:495-505 | a read or write is refused by the client if and only if unacceptable, then by the partition if and only if empty and behind the end, or else every block goes to the disk sectors inside the partition that hold the bytes its descriptor stands for |
| PartDevice.DiscardOnPartition | pkg/libblock-device/include/virtio_client.h:688-706 | the same for every range of a discard or write-zeroes command |
| PartDevice.EmptyReadBehindEnd | pkg/libblock-device/include/part_device.h:172-192 | on every partition an accepted empty read right behind the end is refused |
| PartDevice.EmptyDiscardBehindEnd | pkg/libblock-device/include/part_device.h:49-74 | and so is an accepted discard of an empty range there |
| MbrTable.RegisterPrimary | pkg/libblock-device/include/partition.h:405-445 | the loop registers the four primary entries in their slots |
| MbrTable.ChainIsFirstExtended | pkg/libblock-device/include/partition.h:368-403 | the chain starts at the first listed extended entry, or there is none |
| MbrTable.ListedIff | pkg/libblock-device/include/partition.h:376 | an entry is listed if and only if its kind is used and its sectors have 32-bit numbers, or it starts at 0 without any |
| MbrTable.SpanIsExact | pkg/libblock-device/include/partition.h:368-403 | an entry spans exactly its sectors from offset plus start if and only if that range ends within 32 bits and is not empty at zero |
| MbrTable.ZeroEntryIsListed | pkg/libblock-device/include/partition.h:368-403 | the zero entry of a used kind passes as a partition of 2^32 sectors |
| PartitionScan.StepValid | pkg/libblock-device/include/partition.h:83-119 | every device answer keeps exactly one outstanding callback per unfinished reader, the right one |
| PartitionScan.StepDecreases | pkg/libblock-device/include/partition.h:447-488 | every answer brings the scan nearer to its end, also on a cyclic chain |
| PartitionScan.ScanCallsBackOnce | pkg/libblock-device/include/partition.h:669-689 | over every run the callback fires exactly once, at the end; at most 251 extended records are read; the offset used for a record is its own sector |
| PartitionScan.StartValid | pkg/libblock-device/include/partition.h:144-152 | a fresh scan satisfies the invariant and ends within 6108 events |
| PartitionScan.PollsAtMostEleven | pkg/libblock-device/include/partition.h:92-119 | a read survives ten busy answers and is given up at the eleventh |
| PartitionScan.FoundPartitionsDiffer | pkg/libblock-device/include/partition.h:368-403 | at any moment the partitions found in boot records carry pairwise different identifiers |
| PartitionChain.RecordIsReadFrom | pkg/libblock-device/include/partition.h:433-487 | over every scan the first extended record is read from the start of the first listed extended entry, and each further one from that same start plus the link in the record before it, modulo 2^32 |
| PartitionChain.ChainIsReadToItsEnd | pkg/libblock-device/include/partition.h:447-490 | over every scan another record is begun if and only if the last one is good and links to one within the limit of 255; the number of partitions is four plus that of the good records |
| PartitionChain.FoundIsWhatWasRead | pkg/libblock-device/include/partition.h:366-403 | over every scan slot k of the first four is primary entry k, and slot 4 + k is entry 0 of record k shifted by the sector that record was read from |
| PartitionLabels.LabelsAreWhatWasRead | pkg/libblock-device/include/partition.h:549-632 | over every scan the superblocks of the Linux partitions are read in order, each 1024 bytes into its partition, until a read fails, and exactly the partitions whose superblock has a label get one |
| PartitionFallback.BootRecordIfNoTable | pkg/libblock-device/include/partition.h:669-690 | over every scan the array is read from where the header says, and the boot record is looked at if and only if the GUID table holds no partitions; otherwise it holds as many as announced, up to 1024 |
| PartitionScan.UnreadTableKept | pkg/libblock-device/include/partition.h:212-280 | an unread GUID array is counted as found if and only if the device never accepted the read |
| PartitionScan.UnreadTableRun | pkg/libblock-device/include/partition.h:212-280 | a scan that ends so: header found, array refused, one partition announced |
| PartitionReader.Reader.Next | pkg/libblock-device/include/partition.h:549-563 | moves to the first remaining Linux partition, or the end |
| PartitionReader.Reader.GetMbr | pkg/libblock-device/include/partition.h:405-445 | refines the boot-record step |
| PartitionReader.Reader.GetExt | pkg/libblock-device/include/partition.h:447-488 | refines the extended-record step |
| PartitionReader.Reader.GetLabel | pkg/libblock-device/include/partition.h:582-628 | refines the label step |
| PartitionReader.Reader.Handle | pkg/libblock-device/include/partition.h:83-119 | every device answer is one step of the scan and keeps its invariant |
| PartitionReader.Reader.RunScan | pkg/libblock-device/include/partition.h:83-119 | driven by any device, the reader ends, takes only steps of the scan, and has called back exactly once with no callback left |
| PartitionReader.ReadPartitions | pkg/libblock-device/include/partition.h:669-689 | a whole scan ends within 6108 device answers after one callback and at most 251 extended records |
| Errand.PollErrand.Expired | pkg/libblock-device/include/errand.h:37-65 | one timeout: calls back on success or when retries run out, else asks again |
| Errand.Poll | pkg/libblock-device/include/errand.h:191-200 | exactly one callback, with the last answer, after the first success or retries plus one executions |
| Errand.DocumentedLimit | pkg/libblock-device/include/errand.h:171-200 | the documented limit holds if and only if the function succeeds within that many executions |
| Errand.PollInVain | pkg/libblock-device/include/errand.h:191-200 | a function that never succeeds is executed once more than its retries |
| DeviceNames.CheckForm | pkg/libblock-device/include/block_device_mgr.h:559-589 | recognises exactly the strings of hexadecimal digits with dashes at the given places and the given length |
| DeviceNames.GuidFoundInAnyCase | pkg/libblock-device/include/block_device_mgr.h:383-417 | a rendered GUID in any letter case, with or without prefix, parses to the stored form |
| DeviceNames.MbrFoundInAnyCase | pkg/libblock-device/include/block_device_mgr.h:383-417 | the same for boot-record identifiers |
| DeviceNames.ParsePlain | pkg/libblock-device/include/block_device_mgr.h:383-417 | a label is what follows its prefix, what follows the other prefix must be a UUID, and anything else is taken as it is |
| DeviceNames.GuidDistinct | pkg/libblock-device/include/partition.h:282-291 | two GUIDs render alike if and only if they are equal |
| DeviceNames.MbrDistinct | pkg/libblock-device/include/partition.h:379-380 | two identifiers are equal if and only if disk id and partition number are |
| Connections.AttachmentIsExclusive | pkg/libblock-device/include/block_device_mgr.h:153-223 | over every run: one client per device, never a disk together with its partition, the scheduler list is exactly the attached clients without duplicates, a static client attaches at most once |
| Connections.DestroyedOnlyIdle | pkg/libblock-device/include/block_device_mgr.h:296-320 | no event destroys a client with requests in flight |
| Connections.CheckIsSafe | pkg/libblock-device/include/block_device_mgr.h:210-223 | looking for dead clients keeps deferred removals sound if and only if none is outstanding |
| Connections.ErrandIsSafe | pkg/libblock-device/include/block_device_mgr.h:296-320 | a sound deferred removal finds its client and removes only a dead one |
| Connections.PatientRunIsSound | pkg/libblock-device/include/block_device_mgr.h:296-320 | in runs that look for dead clients only while no removal is deferred, no deferred removal ever fails and no step detaches a client that is alive or has requests in flight |
| Connections.StepSpares | pkg/libblock-device/include/block_device_mgr.h:210-320 | with sound deferred removals every event detaches only dead clients without requests in flight |
| Connections.EarlyCheckFaults | pkg/libblock-device/include/block_device_mgr.h:296-320 | otherwise a drained client is removed first and its deferred removal fails |
| Connections.EarlyCheckHitsSuccessor | pkg/libblock-device/include/block_device_mgr.h:296-320 | or, if a new client is attached to the device after the early look, removes that one although it is alive |
| Connections.SuccessorRun | pkg/libblock-device/include/block_device_mgr.h:296-320 | a run whose deferred removal of one client removes another one that is alive |
| Connections.ImpatientRun | pkg/libblock-device/include/block_device_mgr.h:501-505 | a run in which the deferred removal finds no client |
| Connections.DeadAllHas | pkg/libblock-device/include/block_device_mgr.h:210-223 | no dead client is missed although partitions are looked at only when their disk is free |
| ConnectionNames.InterfaceAnswer | pkg/libblock-device/include/block_device_mgr.h:153-208 | the answer of a disk, exactly: EIO while shutting down; else the first device that carries the name, partitions before the disk, is attached if free and not shut out, EBUSY if not free, and ENODEV if there is none |
| ConnectionNames.YoungestDecides | pkg/libblock-device/include/block_device_mgr.h:480-495 | a dynamic request is decided by the youngest disk that carries the name or is shutting down |
| ConnectionNames.NobodySpeaks | pkg/libblock-device/include/block_device_mgr.h:480-495 | and finds no device if and only if there is no such disk |
| ConnectionNames.DynamicAttaches | pkg/libblock-device/include/block_device_mgr.h:480-495 | a dynamic client is attached to exactly one place, free before, that carries the name it asked for |
| ConnectionNames.StaticsMatched | pkg/libblock-device/include/block_device_mgr.h:531-554 | a new disk attaches only devices that carry the name of a client that waited, and every client that waits no longer has such a device |
| ConnectionNames.ConnectAnswer | pkg/libblock-device/include/block_device_mgr.h:531-554 | a waiting client is connected if and only if the device it asks for is free; one that asks for a taken device ends the round |
| ConnectionNames.OnlyAskedForAttached | pkg/libblock-device/include/block_device_mgr.h:153-208 | over every run every attached place carries a name that somebody asked for |
| DeviceManager.Manager.CreateInterfaceFor | pkg/libblock-device/include/block_device_mgr.h:153-208 | the loop over partitions gives exactly the specified answer and attachment |
| DeviceManager.Manager.CreateDynamicClient | pkg/libblock-device/include/block_device_mgr.h:452-499 | asks disk after disk until one does not say no such device |
| DeviceManager.Manager.AddScannedDisk | pkg/libblock-device/include/block_device_mgr.h:507-552 | connects the waiting clients of a new disk in order |
| DeviceManager.Manager.Remove | pkg/libblock-device/include/block_device_mgr.h:296-320 | drops an idle client and defers the removal of a busy one |
| DeviceManager.Manager.CheckDisk | pkg/libblock-device/include/block_device_mgr.h:210-223 | removing dead clients while walking one disk equals removing those found beforehand |
| DeviceManager.Manager.Check | pkg/libblock-device/include/block_device_mgr.h:501-505 | the same for all disks |
| TmpfsBuffer.WrittenByte | pkg/tmpfs/src/tmpfs.cc:63-73 | a write replaces exactly its bytes; all others are kept and a hole reads as zero |
| TmpfsBuffer.WriteThenRead | pkg/tmpfs/src/tmpfs.cc:54-73 | what is written reads back |
| TmpfsBuffer.RegrownIsZero | pkg/tmpfs/src/tmpfs.cc:75-85 | bytes cut off by a shrink read as zero after growing again |
| TmpfsBuffer.WritesJoin | pkg/tmpfs/src/tmpfs.cc:132-146 | two adjoining writes equal one concatenated write |
| TmpfsBuffer.VectoredReadIsMaximal | pkg/tmpfs/src/tmpfs.cc:118-130 | a vectored read is a prefix of the whole read, and all of it if and only if no empty element stops it with bytes left |
| TmpfsBuffer.EmptyElementStopsRead | pkg/tmpfs/src/tmpfs.cc:118-130 | an empty element in the middle cuts the read short |
| TmpfsBuffer.DoublingReachesIff | pkg/tmpfs/src/tmpfs.cc:88-98 | doubling a 64-bit capacity reaches the size needed if and only if that is at most 2^63 |
| TmpfsBuffer.GrowingEndsIff | pkg/tmpfs/src/tmpfs.cc:88-98 | so growing a buffer of any capacity ends if and only if the size needed is at most 2^63 |
| TmpfsBuffer.FarWriteNeverEnds | pkg/tmpfs/src/tmpfs.cc:88-98 | two bytes at offset 2^63 - 1 are a write for which it does not end |
| TmpfsBuffer.Inode.Grown | pkg/tmpfs/src/tmpfs.cc:91-92 | the doubling loop ends with a capacity that is large enough |
| TmpfsBuffer.Inode.Ensure | pkg/tmpfs/src/tmpfs.cc:88-98 | growing keeps the content; it fails exactly when the allocator does |
| TmpfsBuffer.Inode.Pread | pkg/tmpfs/src/tmpfs.cc:54-61 | returns exactly the bytes there are |
| TmpfsBuffer.Inode.Pwrite | pkg/tmpfs/src/tmpfs.cc:63-73 | the buffer refines the byte sequence; errors change nothing |
| TmpfsBuffer.Inode.Truncate | pkg/tmpfs/src/tmpfs.cc:75-85 | cuts or extends with zeros; errors change nothing |
| TmpfsBuffer.File.Preadv | pkg/tmpfs/src/tmpfs.cc:118-130 | returns exactly what one read of the elements before the first empty one would |
| TmpfsBuffer.File.Pwritev | pkg/tmpfs/src/tmpfs.cc:132-146 | stores the elements before the first refused one as one write, at the end of the file in append mode, and returns their total or the error |
| TmpfsPaths.Split | pkg/tmpfs/src/tmpfs.cc:334-353 | finds the first component and the rest of the path |
| TmpfsPaths.SlashesDoNotMatter | pkg/tmpfs/src/tmpfs.cc:334-353 | any spelling of a component list with leading, repeated and trailing slashes has these components |
| TmpfsPaths.EveryPathIsSpelled | pkg/tmpfs/src/tmpfs.cc:334-353 | and every path is such a spelling, so nothing else is ignored |
| TmpfsTree.PrefixIsFile | pkg/tmpfs/src/tmpfs.cc:191-196 | a path fails with ENOTDIR if and only if a name before its last is a file, otherwise at most with ENOENT |
| TmpfsTree.OnePathEach | pkg/tmpfs/src/tmpfs.cc:355-390 | no node is reached by two component lists |
| TmpfsTree.MkdirAddsOnePath | pkg/tmpfs/src/tmpfs.cc:216-231 | a successful mkdir adds exactly its path, as an empty directory, and changes no other |
| TmpfsTree.CreateAddsOnePath | pkg/tmpfs/src/tmpfs.cc:208-213 | creating a file adds exactly its path, with a fresh empty content |
| TmpfsTree.UnlinkRemovesOnePath | pkg/tmpfs/src/tmpfs.cc:233-247 | a successful unlink removes exactly the path of a file and no content |
| TmpfsTree.RmdirRemovesOnePath | pkg/tmpfs/src/tmpfs.cc:249-264 | a successful rmdir removes exactly the path of an empty directory |
| TmpfsAnswers.OpenExisting | pkg/tmpfs/src/tmpfs.cc:200-207 | opening what exists changes no path and no other content; the content of the file stays if and only if truncation was not asked for or it was empty, and with truncation becomes empty |
| TmpfsAnswers.OpenHandle | pkg/tmpfs/src/tmpfs.cc:182-214 | there is a handle if and only if the open succeeds; it is on what the path then leads to and appends if and only if asked |
| TmpfsAnswers.OpenAnswer | pkg/tmpfs/src/tmpfs.cc:182-214 | each answer of an open if and only if its condition on what the path leads to holds |
| TmpfsAnswers.FailedOpen | pkg/tmpfs/src/tmpfs.cc:200-214 | a failed open changes nothing, unless only the handle could not be made: then, and only then, a file has been created or truncated |
| TmpfsAnswers.MkdirAnswer | pkg/tmpfs/src/tmpfs.cc:216-231 | each answer of mkdir if and only if its condition holds; a failure changes nothing |
| TmpfsAnswers.UnlinkAnswer | pkg/tmpfs/src/tmpfs.cc:233-247 | the same for unlink |
| TmpfsAnswers.RmdirAnswer | pkg/tmpfs/src/tmpfs.cc:249-264 | the same for rmdir, which succeeds if and only if the path leads to a directory with nothing below it |
| TmpfsAnswers.AccessAnswer | pkg/tmpfs/src/tmpfs.cc:266-278 | the same for access |
| TmpfsTree.ReachableIsTree | pkg/tmpfs/src/tmpfs.cc:182-397 | after every run from the empty file system it is a tree with distinct, slash-free sibling names |
| TmpfsTree.UnlinkOrphans | pkg/tmpfs/src/tmpfs.cc:233-247 | after an unlink no name leads to the file |
| TmpfsTree.HandleKeepsContent | pkg/tmpfs/src/tmpfs.cc:182-278 | over every run that does not write through its handles an unlinked file keeps its content and no name ever leads to it again, also when its old name is reused |
| TmpfsDir.CutEntry | pkg/tmpfs/src/tmpfs.cc:392-397 | takes exactly the named entry out of the list |
| TmpfsDir.Tmpfs.FindEntry | pkg/tmpfs/src/tmpfs.cc:355-361 | finds the entry with exactly this name, or none |
| TmpfsDir.Tmpfs.GetEntry | pkg/tmpfs/src/tmpfs.cc:182-214 | opening, truncating and creating along a path equals doing it at the component list, with the same error codes |
| TmpfsDir.Tmpfs.Mkdir | pkg/tmpfs/src/tmpfs.cc:216-231 | the same for mkdir |
| TmpfsDir.Tmpfs.UnlinkPath | pkg/tmpfs/src/tmpfs.cc:233-247 | the same for unlink |
| TmpfsDir.Tmpfs.Rmdir | pkg/tmpfs/src/tmpfs.cc:249-264 | the same for rmdir |
| TmpfsDir.Tmpfs.Faccessat | pkg/tmpfs/src/tmpfs.cc:266-278 | the same for faccessat |
| Virtqueue.SlotKept | pkg/netd/server/main.cc:280-288 | the driver writes only an available-ring slot whose former entry the device has taken |
| Virtqueue.ReturnKept | pkg/netd/server/main.cc:261-264 | the device writes only a used-ring slot whose former entry the driver has read |
| Virtqueue.StepKept | pkg/netd/server/main.cc:251-297 | every step of driver or device keeps rings and wrapping indices equal to two unbounded queues of the 16 descriptors |
| Virtqueue.GuardsExact | pkg/netd/server/main.cc:256-261 | comparing 16-bit indices tells each side exactly whether there is something for it |
| Virtqueue.QueueIsConserved | pkg/netd/server/main.cc:251-297 | over every interleaving and any number of wraps each descriptor is in exactly one place and 16 more are published than consumed between rounds |
| Virtqueue.PrefillRx | pkg/netd/server/main.cc:339-354 | fills descriptors and ring so that the invariant holds at the start |
| Virtqueue.PrefilledInv | pkg/netd/server/main.cc:339-354 | the state after filling satisfies the invariant |
| ReceiveDriver.Receiver.HandleOne | pkg/netd/server/main.cc:261-294 | one pass of the inner loop is the four driver steps |
| ReceiveDriver.Receiver.HandleAll | pkg/netd/server/main.cc:261-294 | the inner loop ends with every returned buffer offered again, in order, and nothing else moved |
| TransmitQueue.StepInv | pkg/netd/server/main.cc:210-246 | every step of sender or device keeps the transmit invariant |
| TransmitQueue.BufferNeverShared | pkg/netd/server/main.cc:210-246 | over every run the sender writes the buffer, descriptor and ring only while the device has nothing, and an ended send has its packet back |
| TransmitQueue.WaitIsExact | pkg/netd/server/main.cc:238-243 | leaving the wait loop means exactly that the packet is back, and one catch-up step ends the send |
| TransmitQueue.EveryPacketHandedOver | pkg/netd/server/main.cc:210-246 | over every run each packet short enough is handed to the device once and no other is, and the ring slot the device looks at names its descriptor |
| TransmitQueue.SendEnds | pkg/netd/server/main.cc:210-246 | the sender always has a step that brings the end of the send closer, except while the device has the packet |
| TransmitQueue.AcceptedFitsIff | pkg/netd/server/main.cc:212-214 | a packet that is not refused fits the buffer if and only if its length with header is a 16-bit value |
| TransmitQueue.LongPacketAccepted | pkg/netd/server/main.cc:212-214 | a packet of 65530 bytes is not refused and does not fit |
| IcmpChecksum.NoOverflow | pkg/netd/server/main.cc:787-789 | buffers of up to 131074 bytes never overflow the 32-bit accumulator |
| IcmpChecksum.FoldedCongruent | pkg/netd/server/main.cc:790 | the folded sum is congruent to the sum modulo 65535 and zero only for zero |
| IcmpChecksum.IcmpChksum | pkg/netd/server/main.cc:784-792 | the loops compute the complement of the folded content of the 32-bit register, for buffers of up to 131074 bytes of the word sum itself |
| IcmpChecksum.LongBufferMiscounted | pkg/netd/server/main.cc:784-792 | one byte more than that, all ones, gets a wrong checksum |
| IcmpChecksum.LostCarriesHarmlessIff | pkg/netd/server/main.cc:787-790 | carries lost by the register do no harm if and only if there are none, or a multiple of 65535 of them with a register that is not zero |
| IcmpChecksum.StoredChecksumVerifies | pkg/netd/server/main.cc:1074-1083 | storing the checksum in its zeroed, aligned field makes the recomputed checksum 0 |
| IcmpChecksum.WordChangeSeen | pkg/netd/server/main.cc:784-792 | a verified packet with one aligned word changed still verifies if and only if the change is invisible modulo 65535 |
| KlogRing.RolledIsKept | pkg/klog/lib/klog.cc:136-153 | writing entries one by one leaves the last 256 of them |
| KlogRing.Pushed | pkg/klog/lib/klog.cc:138-146 | writing at the head drops the oldest entry exactly when the ring is full |
| KlogRing.NewerIsSuffix | pkg/klog/lib/klog.cc:184-207 | the entries newer than the file are a suffix of the ring |
| KlogRing.AtLevelShows | pkg/klog/lib/klog.cc:215-236 | of consecutive entries exactly those at least as urgent as asked are shown, each once and oldest first |
| KlogRing.Ring.Write | pkg/klog/lib/klog.cc:136-153 | the ring shows the last 256 entries with consecutive numbers |
| KlogRing.Ring.Clear | pkg/klog/lib/klog.cc:238-245 | empties the ring and keeps the numbering |
| KlogRing.Ring.Collect | pkg/klog/lib/klog.cc:169-207 | the two passes over a snapshot give exactly the newer entries and the last of their numbers |
| KlogRing.Ring.Publish | pkg/klog/lib/klog.cc:210-212 | the reported number never goes back |
| KlogRing.Ring.Dump | pkg/klog/lib/klog.cc:215-236 | shows exactly the entries at least as urgent as asked, oldest first |
| KlogFlush.CollectedNumbers | pkg/klog/lib/klog.cc:184-207 | what is collected from the ring is numbered consecutively, from the first number that is neither overwritten nor in the file to the last |
| KlogFlush.FlushIsCollect | pkg/klog/lib/klog.cc:169-213 | the steps of a flush append the numbers of what the ring's method collects, and report the number it returns |
| KlogFlush.FileMissesOnlyLost | pkg/klog/lib/klog.cc:169-213 | with one flush at a time, however writers interleave, the file's numbers strictly increase and a missing number is lost |
| KlogFlush.HowNumbersGetLost | pkg/klog/lib/klog.cc:136-153 | a number is lost only by overwriting in a full ring, by a clear, or by a flush that cannot open the file |
| KlogFlush.AppendKeepsOrderIff | pkg/klog/lib/klog.cc:199-208 | appending a snapshot keeps the order if and only if it has nothing new or the file ends before what it counts as new |
| KlogFlush.OverlapDuplicates | pkg/klog/lib/klog.cc:169-213 | two overlapping flushes that write an entry twice |
| Crc8.ComputeCrc | pkg/ds18b20/lib/ds18b20.cc:110-126 | the nested loops compute the reflected CRC, one polynomial step per bit |
| Crc8.CrcLinear | pkg/ds18b20/lib/ds18b20.cc:110-126 | for messages of equal length the CRC of the difference is the difference of the CRCs |
| Crc8.AppendedCrc | pkg/ds18b20/lib/ds18b20.cc:110-126 | a message with a byte appended has CRC 0 if and only if the byte is its CRC |
| Crc8.BurstSeen | pkg/ds18b20/lib/ds18b20.cc:110-126 | no non-zero error confined to 8 consecutive bits has CRC 0, for every message length |
| Crc8.CorruptionRejected | pkg/ds18b20/lib/ds18b20.cc:236-249 | a valid scratchpad with such an error is always rejected |
| OneWire.SentArrives | pkg/ds18b20/lib/ds18b20.cc:189-206 | the bits of a byte, least significant first, make that byte again |
| OneWire.ArrivedWasSent | pkg/ds18b20/lib/ds18b20.cc:189-206 | and eight bits make the one byte that sends them |
| OneWire.Ds18b20.WriteByte | pkg/ds18b20/lib/ds18b20.cc:189-195 | sends the bits of the byte in order |
| OneWire.Ds18b20.ReadByte | pkg/ds18b20/lib/ds18b20.cc:197-206 | takes the next eight bits and gathers them |
| OneWire.Ds18b20.ReadScratchpad | pkg/ds18b20/lib/ds18b20.cc:236-249 | accepts nine bytes if and only if the last is the CRC of the others |
| OneWire.Ds18b20.ReadRom | pkg/ds18b20/lib/ds18b20.cc:260-283 | returns the eight bytes if and only if a sensor answers and their CRC is 0 |
| Eeprom.StoredIsUpdate | pkg/at24c02/lib/at24c02.cc:82-116 | storing byte by byte sets exactly the range and nothing else |
| Eeprom.InsidePage | pkg/at24c02/lib/at24c02.cc:58-71 | a page write inside its page on the wrapping device equals a plain update |
| Eeprom.OtherPagesKept | pkg/at24c02/lib/at24c02.cc:58-71 | no page write reaches another page |
| Eeprom.At24c02.WritePage | pkg/at24c02/lib/at24c02.cc:58-71 | the device takes the bytes in turn, wrapping inside the page |
| Eeprom.At24c02.WriteChunk | pkg/at24c02/lib/at24c02.cc:95-112 | a chunk never crosses a page boundary and ends at one or at the end |
| Eeprom.At24c02.Write | pkg/at24c02/lib/at24c02.cc:82-116 | success stores exactly the clamped range; failure stores a prefix that ends at a page boundary and returns that page's error |
| Eeprom.At24c02.Read | pkg/at24c02/lib/at24c02.cc:40-56 | returns the clamped range with its length narrowed to a byte |
| Eeprom.ReadBackIff | pkg/at24c02/lib/at24c02.cc:40-116 | what was written reads back if and only if the clamped length is below 256 |
| Eeprom.WholeMemoryReadsNothing | pkg/at24c02/lib/at24c02.cc:55 | a read of all 256 bytes returns none |

## Left out

- IPC, capabilities, dataspaces, DMA allocation, cache maintenance and the L4virtio base classes: device answers, completions, allocator answers and bus answers are parameters or events instead.
- Allocation failures that throw; the block layer's descriptors and commands appear already decoded.
- Linked lists and reference counts: connection lists, tmpfs entry lists and reference-counted nodes are sequences and maps with numbered nodes, so freeing memory and aliasing are not captured.
- BlockProgress.ScheduleEnds: assumes that no client has or comes to a request dearer than its weight, without which the loop need not end, as BlockTermination.EndsIffAffordable shows.
- BlockTurns.TurnsGoRound: adding or removing a client sends the next call back to the first client, so runs are taken between such events.
- BlockRuns.InFlightIsExact: the removal clause assumes fewer than 2^32 requests in flight, where the 32-bit counter is not ambiguous.
- BlockWakeup.StuckRequestIsAwaited: assumes a device that is busy only while a request of the notification domain is in flight.
- PartDevice.InoutContained: sector products are unbounded numbers, so 64-bit overflow of capacities is not captured.
- Connections.AttachmentIsExclusive: connection trees have depth one, since only disks are scanned for partitions.
- TmpfsBuffer.Inode.Ensure: assumes a need of at most 2^63 bytes, which is exactly where the doubling loop ends, as TmpfsBuffer.GrowingEndsIff shows.
- TmpfsBuffer.File.Pwritev: assumes for the same reason that the elements end at most 2^63 bytes into the file.
- TmpfsBuffer.Inode.Pwrite: assumes that offset plus length is at most 2^63, beyond which the doubling loop does not end, as TmpfsBuffer.GrowingEndsIff and TmpfsBuffer.FarWriteNeverEnds show.
- TmpfsBuffer.File.Preadv: the destination buffers are one sequence of bytes, so overlapping buffers are not captured.
- Virtqueue.QueueIsConserved: the queue size is 16 and the device returns only descriptors it holds; frame contents are not followed.
- TransmitQueue.BufferNeverShared: sends are taken one at a time, as the network stack's core lock makes them.
- KlogFlush.FileMissesOnlyLost: entries are their sequence numbers; 64-bit wrap of the numbering is not captured.
- Eeprom.At24c02.Write: a refused message is taken to store nothing, and the 32-bit sum of address and length is taken not to wrap.
- OneWire.Ds18b20.ReadRom: the code is returned as its eight bytes instead of a 64-bit word; bus timing is left out.
- GPT header and array checksums, UTF conversion and label text: the code does not check the former and the latter is library code.
- netd's sockets, DHCP, DNS and echo threads, the console text of klog, tmpfs `getdents`, the temperature conversion of ds18b20: plumbing or formatting.
- pkg/mcp2515, pkg/tef6686hn, pkg/ssd1306, pkg/authd, pkg/devfs and pkg/procfs: encoders, simple parsers and lookup tables that would only add easy members.
