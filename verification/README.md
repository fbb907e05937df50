# Sensorium runtime bridge: a verified model

Sensorium lets a user-space daemon play the devices behind kernel buses. This project models the two
sides of its runtime bridge (ABI v5) and the virtual camera, and proves what they keep.

- **Rings and arena** (`Words`, `Arena`, `ChannelModel`, `ChannelProofs`, `Channel`, `LockStep`, `LockStepSizes`,
  `SubmitEntries`, `Layout`): one direction of the shared page as a state machine whose events each read or
  write one shared word, descriptor or payload (besides the words its own side alone writes), so a list of
  events is an interleaving. The same machine serves the kernel as producer (32-bit arithmetic) and the daemon as
  producer (unbounded integers). The daemon drains its rings in lock step, which covers its counters for ever.
- **Request lifecycle** (`RequestModel`, `RequestCredits`, `Requests`): ids, the id index, credits, replies,
  timeouts, resets and release.
- **Kernel inventory** (`Names`, `KernelModel`, `KernelProofs`, `KernelRemoval`, `KernelInventory`): lists, the
  two handle indexes, location indexes, and UART groups with their slots and references.
- **Daemon inventory** (`RuntimeModel`, `Replay`, `Daemon`, `DaemonRuns`): normalization, its agreement
  with the checks of the kernel, apply, rollback, reset, resync, attach and detach under any script of
  requests that fail, and runs of them.
- **UART queues** (`UartModel`, `UartLoss`, `Uart`): circular buffers, the transmit work item, the receive
  path, and what a reset can lose.
- **Transfers** (`Wire`, `Faults`, `I2cModel`, `BankModel`, `TransferModel`, `BankLaws`, `I2cDevice`,
  `I2cTransfer`, `SpiModel`, `SpiScript`, `SpiScriptLaws`, `SpiTransferModel`, `SpiTransfer`, `UartScript`):
  packing, parsing, templates and scattering, end to end.
- **Camera** (`CameraModel`, `CameraReturns`, `CameraStart`, `Camera`, `Bayer`, `SensorModes`): ownership of
  frame buffers, the frame work, the two conversions to the Bayer mosaic, and the modes of the profiles.
- **RPC** (`RpcModel`, `RpcProofs`, `RpcAnswers`, `Rpc`): per-client queues, worker slots and completions.

Each component that changes state in place is a class whose methods are proved against functions on
values; the invariants, run theorems and round trips are lemmas about those functions.

Where the code does less than one would hope, the exact condition is proved:

- A drained arena, of the kernel or of the daemon, refuses a payload, however often it is sent again, when the
  skip to the next lap reaches 2^32 (`Arena.DrainedKernelArenaAccepts`, `Arena.DrainedDaemonArenaAccepts`,
  `Arena.DrainedKernelArenaStuckAtWrap`, `LockStep.DaemonStuckAtWrap`). In a zone that divides 2^32
  commands of one size get there unless their size divides the zone (`LockStepSizes.EqualSizesArriveIff`).
- The request index stays exact only while the incremented id is unused. A run that uses up 2^32 ids under a
  waiting request makes that request unanswerable (`RequestModel.SendKeepsIndexIff`,
  `RequestModel.WaitingRequestLosesItsReply`). That takes 2^32 sends within one wait, which lasts
  `runtime_timeout_ms`: one second by default, at most 2^32 - 1 ms.
- The credits in use fall below the number of unanswered requests when a timeout races an answer: the credit
  is given back twice (`RequestCredits.StepKeepsCreditsIff`).
- A UART flush or carrier drop between copy-out and commit makes the next round discard as many of the bytes
  accepted since as were out (`UartLoss.ResetDuringSendDiscards`, `UartLoss.ByteLostByResetDuringSend`).
- In a desynced daemon a resync is refused for ever if an attached device is not an unmanaged controller,
  which `device.update` allows (`DaemonRuns.ResyncRefusedAfterTemplate`, `DaemonRuns.DesyncedForGood`); before
  the desync a detach would mend it. A resync that fails half way keeps only a prefix of the inventory
  (`Daemon.RuntimeManager.Resync`).
- Reads of the last eight lengths the kernel accepts always time out, after the bank has run them
  (`TransferModel.TransferTimesOutIff`).
- A short-reply fault fails a transfer only when the injected bytes do not fill its reads or exceed a payload
  (`TransferModel.ShortReplyIsProtocolErrorIff`).
- Payloads of up to 4 MiB pass the size checks, but only arenas of at least 32 MiB less four bytes carry all
  of them at every position; the default is 8 MiB (`Layout.CarriesEveryPayloadIff`).
- Echoed replies depend on how the input is chunked (`UartScript.EchoSeesChunkingUnlessItCommutes`,
  `UartScript.EchoWitness`), but not on cuts that complete no answered line.

Four more hold of the code on inputs that the rest of the system does not produce:

- The full test of the daemon is wrong across the wrap of its ring words, exactly when the ring is full and
  the tail has wrapped (`ChannelProofs.FullTestAcrossWrap`, `ChannelProofs.DaemonOverrunsAtWrap`); the daemon
  keeps its lock until the submit ioctl has drained the ring, so it never finds one full
  (`LockStep.SubmissionDelivers`, `SubmitEntries.SubmitRing.SubmitEntry`).
- The kernel conversion leaves the last column of odd-width frames unwritten (`Bayer.KernelAgreesWithTool`);
  every mode of the profiles is even (`SensorModes.ProfilesAreEven`).
- The daemon refuses SPI messages without transfers, which the kernel would pack
  (`SpiTransferModel.EmptyMessageIsRefused`); the SPI core refuses them before the driver is asked.
- Switching the sensor off with a frame due and no work running stalls the stream
  (`CameraModel.StepKeepsStreamingIff`); nothing in the repository calls `s_stream`.

## Model

| member | source | states |
|---|---|---|
| Arena.ReservationFits | src/sensorium/runtime/bridge_protocol.py:281-290 | a granted reservation starts at or after the tail, ends within one zone of the head, and does not straddle the end of the zone |
| Arena.DaemonReservesFirstRoom | src/sensorium/runtime/bridge_protocol.py:281-290 | whatever is undrained, the daemon reserves if and only if there is an offset behind the tail that keeps the payload within the zone and within one zone of the head, and takes the first |
| Arena.PlaceIsFirstRoom | src/sensorium/runtime/bridge_protocol.py:281-290 | there is such an offset if and only if the tail, or the start of the next lap when the payload would straddle the end of the zone, is one, and that is the first |
| Arena.KernelReservesFirstRoom | kernel/sensorium-runtime-core.c:18-37 | the kernel reserves in words the same offset under the same condition, except that it must not be on the other side of a multiple of 2^32 from the head |
| Arena.KernelReserveIsSound | kernel/sensorium-runtime-core.c:18-37 | what the kernel grants in 32- and 64-bit words is the word of what unbounded counters would grant, below 2^32 or for a zone dividing 2^32 |
| Arena.ReserveAgreesBelowWrap | kernel/sensorium-runtime-core.c:18-37 | a zone short of 2^32 the kernel and the daemon reserve alike, refusals included |
| Arena.DrainedKernelArenaAccepts | kernel/sensorium-runtime-core.c:18-37 | a drained arena takes L bytes if and only if they fit before the end of the zone, or before the tail with the skip not passing 2^32 |
| Arena.DrainedDaemonArenaAccepts | src/sensorium/runtime/bridge_protocol.py:281-290 | a drained arena of the daemon reserves an offset that the 32 bits of a descriptor can hold exactly when the kernel reserves: L bytes fit before the end of the zone, or before the tail with the skip not passing 2^32 |
| Arena.HalfZoneAlwaysFits | kernel/sensorium-runtime-core.c:18-37 | a payload of up to half the zone always goes through a drained arena, away from 2^32 |
| Arena.DrainedKernelArenaStuckAtWrap | kernel/sensorium-runtime-core.c:24-36 | a concrete drained arena whose skip reaches 2^32: the kernel refuses the payload, the daemon reserves 2^32, which no descriptor can hold |
| Words.DistinctWithinLap | kernel/sensorium-runtime-core.c:231-250 | counters less than one lap apart use different ring slots |
| Words.WordKeepsSlot | kernel/sensorium-runtime-core.c:231-250 | a truncated counter selects the slot of the unbounded one below 2^32 or when the ring size divides 2^32 |
| ChannelProofs.DisjointInZone | kernel/sensorium-runtime-core.c:18-37 | entries that follow one another within a zone occupy disjoint bytes of it |
| ChannelProofs.TakeReadsOldest | src/sensorium/runtime/bridge_protocol.py:458-493 | the three reads of the consumer, tail word, descriptor and payload, find the oldest accepted message, and the session matches |
| ChannelProofs.StepKeepsInv | kernel/sensorium-runtime-core.c:216-274 | every single access to the shared page, by either side, keeps words, slots, payload bytes and both program counters in order, as long as the words are exact |
| ChannelProofs.ChannelIsFifo | kernel/sensorium-runtime-core.c:216-274 | over every interleaving the accepted messages are those delivered followed by those in flight, byte for byte and in order |
| ChannelProofs.DividingRingIsExact | kernel/sensorium-runtime-core.c:231-263 | a kernel producer whose ring size divides 2^32 never leaves the exact regime, for a zone that divides 2^32 too, or any zone while the payload counters are below the wrap |
| ChannelProofs.TransportRingSurvivesWrap | src/sensorium/runtime/bridge_protocol.py:458-493 | with a ring size dividing 2^32 the transport ring is a bounded FIFO over runs that wrap its ring words, with any zone until the payload counters wrap, and for ever with a dividing one |
| ChannelProofs.PayloadsAreDisjoint | kernel/sensorium-runtime-core.c:18-37 | in every reachable state undrained payloads are pairwise disjoint and none straddles the end of its zone |
| ChannelProofs.DrainedHeadEqualsTail | src/sensorium/runtime/bridge_protocol.py:491-492 | once everything is drained both pairs of words are equal |
| ChannelProofs.RingFullIsExact | kernel/sensorium-runtime-core.c:231-236 | the full test is true if and only if the ring holds as many messages as entries |
| ChannelProofs.FullTestAcrossWrap | src/sensorium/runtime/bridge_protocol.py:535-538 | in any state of the machine the kernel test is exact; the daemon test is right if and only if the ring is not full or its head word is not above its tail word |
| ChannelProofs.DaemonOverrunsAtWrap | src/sensorium/runtime/bridge_protocol.py:535-538 | a state of the machine, which submissions in lock step never reach, from which one step of the daemon fills the ring at 2^32 and its full test lets one more message in |
| LockStep.SubmissionDelivers | src/sensorium/runtime/bridge_protocol.py:500-563 | whatever counters, ring size and zone, a submission that finds ring and zone drained leaves them drained: it delivers exactly its message if that fits the placement below 2^32, and otherwise changes at most bytes of the zone |
| LockStep.SubmissionsDeliver | src/sensorium/runtime/bridge_protocol.py:500-563 | over any number of submissions and wraps the kernel has been given exactly the messages that found room at their turn, in order |
| LockStepSizes.HalfZoneSubmissionsArrive | src/sensorium/runtime/bridge_protocol.py:281-290 | payloads of at most half the zone all find room while twice their sum stays below 2^32 |
| LockStep.OffsetPastWrapIsRefused | src/sensorium/runtime/bridge_protocol.py:540-560 | an offset of 2^32 or more is reserved and its payload copied, but no descriptor is written and no tail moves |
| LockStep.RefusedForGood | src/sensorium/runtime/bridge_protocol.py:500-563 | a message that finds no room is never delivered, however often it is submitted again |
| LockStep.DaemonStuckAtWrap | src/sensorium/runtime/bridge_protocol.py:281-290 | that holds of a 20-byte message in a 4 MiB zone whose tail is ten bytes short of 2^32 |
| LockStepSizes.EqualSizesArriveIff | src/sensorium/runtime/bridge_protocol.py:281-290 | in a zone dividing 2^32 messages of one size are delivered for ever if and only if their size divides the zone |
| SubmitEntries.SubmitRing.SubmitEntry | src/sensorium/runtime/bridge_protocol.py:500-563 | the submission on the shared memory: what is handled, which error is raised, that the ring is never found full, and that a failed one moves no word and writes no descriptor |
| SubmitEntries.SubmitRing.Drain | kernel/sensorium-runtime.c:518-566 | the drain loop of the submit ioctl hands over the one message there is and then leaves ring and zone drained |
| ChannelProofs.TakeOneDelivers | kernel/sensorium-runtime.c:568-617 | one consumer round delivers exactly the oldest message |
| ChannelProofs.DrainDeliversEverything | kernel/sensorium-runtime.c:518-566 | draining delivers everything in flight, in order |
| Channel.PublishWrites | kernel/sensorium-runtime-core.c:238-263 | one accepted message writes one descriptor, one payload and the two tail words, and nothing else |
| Channel.PublishAppends | src/sensorium/runtime/bridge_protocol.py:535-563 | an offer that fits is queued behind everything in flight |
| Channel.OldestDescriptorReadsMessage | src/sensorium/runtime/bridge_protocol.py:459-487 | the oldest descriptor addresses, inside the zone, exactly the oldest message |
| Channel.AcceptsIffRoom | kernel/sensorium-runtime-core.c:216-250 | in every reachable exact state, drained or not, a message is accepted if and only if it is small enough, a slot is free, and its place ends within one zone of what is undrained, for the kernel before the next multiple of 2^32 |
| Channel.AcceptsIffAnyRoom | kernel/sensorium-runtime-core.c:216-250 | a zone short of 2^32 that is any room at all |
| Channel.BridgeChannel.Submit | kernel/sensorium-runtime-core.c:216-274 | accepted exactly when there is room; then the queue grows by the message, otherwise nothing changes |
| Channel.BridgeChannel.DrainOne | src/sensorium/runtime/bridge_protocol.py:458-493 | hands over the oldest message and shortens the queue by it |
| Channel.BridgeChannel.Drain | src/sensorium/runtime/bridge_protocol.py:458-493 | terminates with an empty queue, everything handed over in order |
| Arena.TakesEveryPayloadIff | kernel/sensorium-runtime-core.c:18-37 | a drained zone takes every payload up to the largest, wherever its tail is below the wrap, if and only if it has twice the largest one less a byte |
| Layout.CarriesEveryPayloadIff | kernel/sensorium-runtime.c:695-723 | an accepted setup carries every payload through all three drained zones if and only if its arena has four times that size |
| Layout.CarveAcceptsIff | kernel/sensorium-runtime.c:149-159 | setup accepts exactly 8 to 1024 entries for each ring and an arena of 2 to 64 MiB; no zone of those is ever empty |
| Layout.NoOffsetWraps | kernel/sensorium-runtime.c:695-723 | no offset computed in 32 bits wraps |
| Layout.CarvedRegionsAreDisjoint | kernel/sensorium-runtime.c:695-723 | control page, three rings and three zones are consecutive and disjoint inside the mapped region, and the zones add up to the arena |
| Layout.RederivedEntriesAreRequested | kernel/sensorium-runtime.c:87-95 | the entry counts recomputed from the offsets are those requested |
| Layout.DescriptorsDoNotOverlap | src/sensorium/runtime/bridge_protocol.py:265-273 | two counters address the same descriptor or disjoint ones, inside the ring |
| RequestModel.StepKeepsSafe | kernel/sensorium-runtime-core.c:276-358 | each send, reply, timeout, wake-up, reset, registration or release keeps the list, the index entries and the credit bounds in order, whatever id is handed out |
| RequestModel.StepKeepsInv | kernel/sensorium-runtime-core.c:276-358 | each step keeps the index exact as well while sends find their ids free |
| RequestModel.RequestsAreSafe | kernel/sensorium-runtime-core.c:276-358 | over every run of any length the list is sound, every index entry is a listed request of that id, and credits in use exceed neither the limit nor the listed unreplied requests |
| RequestModel.IndexIsExactWhileIdsAreFresh | kernel/sensorium-runtime-core.c:276-358 | over every run whose sends find their ids free the index holds exactly the listed requests |
| RequestModel.FewSendsAreFresh | kernel/sensorium-runtime-core.c:303-306 | fewer than 2^32 sends always find their ids free |
| RequestModel.NoCreditLeak | kernel/sensorium-runtime-core.c:198-214 | with no request listed no credit is in use |
| RequestModel.SendKeepsIndexIff | kernel/sensorium-runtime-core.c:303-324 | a send, queued or refused, keeps the index exact if and only if the incremented id is not in use |
| RequestModel.OvertakenIsLost | kernel/sensorium-runtime-core.c:303-324 | a send that is given an id in use takes the older request out of the index: a queued one takes its place, a refused one erases it |
| RequestModel.WaitingRequestLosesItsReply | kernel/sensorium-runtime-core.c:303-324 | a run from the empty table in which a waiting request is overtaken by a refused send, and its reply is then ignored |
| RequestModel.ReplyReachesItsRequest | kernel/sensorium-runtime.c:427-465 | a reply completes its own request, with at most the capacity of its buffer, and touches no other |
| RequestModel.StrayReplyIsIgnored | kernel/sensorium-runtime.c:443-447 | a reply with an unknown id or another generation changes nothing |
| RequestModel.ResetLeavesNobodyWaiting | kernel/sensorium-runtime-core.c:198-214 | after a reset or a daemon exit every request has a status, unanswered ones -EPIPE, and once the waiters have woken up list, index and objects are empty and no credit is in use |
| RequestCredits.StepKeepsCreditsIff | kernel/sensorium-runtime-core.c:226-255 | where the credits in use are exactly the unanswered requests, a step keeps it so if and only if it does not zero the count under one, and is no reply to an answered request nor a timeout after the answer while credits are in use |
| RequestCredits.LimitBites | kernel/sensorium-runtime-core.c:226-255 | over every run of such steps the credits are exact, and a send is refused for them exactly from the limit on |
| RequestCredits.CreditsMoveByOne | kernel/sensorium-runtime-core.c:226-255 | in any safe state a queued send takes exactly one credit, and an answer or timeout of a listed request gives exactly one back |
| RequestCredits.RequestComesAndGoes | kernel/sensorium-runtime-core.c:276-358 | a queued request, answered and woken up or timed out, leaves the table as it was, but for the counters of ids and serials, and holds the reply in between |
| RequestCredits.SessionComesAndGoes | kernel/sensorium-runtime.c:628-815 | open, setup and start give all credits, at least one; after a release sends are refused |
| RequestCredits.ResetChangesGeneration | kernel/sensorium-runtime.c:474-488 | a reset starts another generation, never zero |
| RequestCredits.OldRepliesMissNewRequests | kernel/sensorium-runtime.c:443-447 | a reply to the generation before a reset does not touch a request sent after it |
| Requests.RequestTable.SendRequest | kernel/sensorium-runtime-core.c:276-324 | list, index and credits after a send, also when queueing fails, are those of the model |
| Requests.RequestTable.CmdReply | kernel/sensorium-runtime.c:427-465 | the reply command refines the model step, and its return value |
| Requests.RequestTable.FailEveryRequest | kernel/sensorium-runtime-core.c:198-214 | the loop over the list completes every unreplied request and zeroes the credits; list and index stay as they are |
| Requests.RequestTable.RegisterEventfds | kernel/sensorium-runtime.c:763-805 | registering event descriptors, also when one is refused, is a step of the model |
| Requests.RequestTable.WaitTimedOut | kernel/sensorium-runtime-core.c:325-343 | a timeout unlists its request and gives its credit back, once |
| Requests.RequestTable.WaitCompleted | kernel/sensorium-runtime-core.c:345-357 | a completed wait unlists its request and returns the reply stored for it |
| Names.ScanSuffix | kernel/sensorium-runtime-core.c:110-131 | the backward scan finds the start of the maximal run of trailing digits that leaves a base |
| Names.ParseOfToDec | src/sensorium/runtime/model_base.py:132-139 | decimal printing and parsing are inverse |
| Names.RegexSplitIsSplitPoint | src/sensorium/runtime/model_base.py:102-107 | the only way the name pattern matches splits at the start of the trailing digits |
| Names.PortNameByRegex | src/sensorium/runtime/model_base.py:132-139 | a canonical port name is exactly one the pattern splits into a base and a decimal without leading zeroes |
| Names.PortNameSplitsAgree | src/sensorium/runtime/bridge_protocol.py:201-213 | kernel and daemon split each accepted UART name alike, up to the kernel limits on length and range |
| Names.PortNamesAreInjective | src/sensorium/runtime/bridge_protocol.py:201-213 | different accepted UART names have different base or index |
| Names.BusNamesParse | kernel/sensorium-runtime-core.c:75-108 | accepted I2C and SPI bus names parse in the kernel to their own number, or are out of range |
| KernelProofs.FailedRegistrationRestores | kernel/sensorium-runtime-uart.c:86-195 | a failed port registration leaves all groups as they were |
| KernelProofs.RegistrationKeepsGroups | kernel/sensorium-runtime-uart.c:133-195 | registration keeps references equal to occupied slots and slots equal to devices |
| KernelProofs.UnregistrationKeepsGroups | kernel/sensorium-runtime-uart.c:198-224 | destroying a port does too, and frees the group with its last port |
| KernelProofs.RejectedCommandChangesNothing | kernel/sensorium-runtime.c:161-375 | a refused control command leaves the whole inventory as it was |
| KernelProofs.DeviceAddKeepsInv | kernel/sensorium-runtime.c:253-358 | adding a device keeps indexes, locations, buses and groups consistent |
| KernelProofs.BusRemoveKeepsInv | kernel/sensorium-runtime.c:230-251 | removing a bus removes exactly its devices, and keeps everything consistent |
| KernelProofs.DestroyDevicesKeepsInv | kernel/sensorium-runtime-transport.c:3-24 | destroying listed devices leaves exactly the others, consistently |
| KernelProofs.ResetEmptiesTheKernel | kernel/sensorium-runtime.c:133-147 | a reset leaves nothing, in any list, index, location map or group |
| KernelProofs.ExecuteKeepsInv | kernel/sensorium-runtime.c:161-375 | every control command keeps: indexes equal lists, location indexes equal their devices, no dangling bus, references equal occupied slots |
| KernelProofs.EveryRunKeepsInv | kernel/sensorium-runtime.c:161-375 | so does every sequence of commands, whatever fails |
| KernelProofs.ListsDetermineTheKernel | kernel/sensorium-runtime-transport.c:3-53 | two consistent kernels with the same bus and device lists agree in every index, location map and group |
| KernelRemoval.DeviceRemoveRemoves | kernel/sensorium-runtime.c:360-375 | removing a device the kernel has succeeds; exactly it leaves the list, the buses stay, and no index, location map or port slot knows its handle any more |
| KernelRemoval.RemovableIsListed | kernel/sensorium-runtime.c:360-375 | device_remove succeeds for the handles of listed devices and is -ENOENT for all others |
| KernelRemoval.RemoveThenAddRestores | kernel/sensorium-runtime.c:253-375 | removing a device and adding it again passes every check and restores every index, location map, slot and reference, with the device last in its list |
| KernelRemoval.EveryRunIsAdmitted | kernel/sensorium-runtime.c:253-358 | over every sequence of commands all devices have settings and ports that device_add accepts |
| KernelRemoval.BusRemoveRemoves | kernel/sensorium-runtime.c:230-251 | removing a bus the kernel has succeeds; it and exactly its devices leave the lists, the others stay in order |
| KernelInventory.RuntimeState.AddBus | kernel/sensorium-runtime.c:161-228 | in-place bus_add refines the command and its status |
| KernelInventory.RuntimeState.RegisterPort | kernel/sensorium-runtime-uart.c:86-195 | taking reference and slot in place, and giving back what was taken when a later step fails, refines the registration and its status |
| KernelInventory.RuntimeState.DestroyPort | kernel/sensorium-runtime-uart.c:198-224 | freeing slot and reference in place refines the unregistration |
| KernelInventory.RuntimeState.AddDevice | kernel/sensorium-runtime.c:253-358 | in-place device_add, with its unwinding, refines the command and its status |
| KernelInventory.RuntimeState.RemoveBus | kernel/sensorium-runtime.c:230-251 | in-place bus_remove refines the command |
| KernelInventory.RuntimeState.RemoveDevice | kernel/sensorium-runtime.c:360-375 | in-place device_remove refines the command |
| KernelInventory.RuntimeState.Reset | kernel/sensorium-runtime.c:133-147 | the two teardown loops refine the reset, and end empty |
| RuntimeModel.AcceptedIsWellFormed | src/sensorium/runtime/model.py:55-102 | accepted models have unique ids, bus names, addresses, chip selects and ports, existing buses of the right transport, and settings in range |
| RuntimeModel.ExportRoundTrips | src/sensorium/runtime/state.py:290-299 | exporting a well-formed inventory and normalizing it again gives it back in every modelled field, never a refusal on their account |
| RuntimeModel.ClashingBusIsFatal | src/sensorium/runtime/model.py:60-70 | no model with two clashing buses is accepted |
| RuntimeModel.ClashingDeviceIsFatal | src/sensorium/runtime/model.py:72-102 | no model with two clashing devices is accepted |
| RuntimeModel.PortMayBeDeviceName | src/sensorium/runtime/model_normalize.py:245-255 | a UART device may give its port as the device name, and a port name given as well is the one that counts |
| RuntimeModel.NodeNameIsImplied | src/sensorium/runtime/model_normalize.py:190-207 | an SPI device may leave its node name out, and no other name than the implied one is accepted |
| RuntimeModel.NormalizeBuses | src/sensorium/runtime/model.py:55-70 | the loop accepts exactly the bus lists that have a normal form, and returns it |
| RuntimeModel.NormalizeDevices | src/sensorium/runtime/model.py:71-103 | the loop accepts exactly the device lists that have a normal form in the modelled fields, and returns it |
| Replay.BusReplays | src/sensorium/runtime/inventory.py:116-130 | into a kernel that mirrors the daemon the next bus is accepted if and only if its name is within the kernel limits |
| Replay.DeviceStatusIsOk | kernel/sensorium-runtime.c:260-308 | no device of an accepted model meets a duplicate handle, missing bus, transport mismatch, occupied location, duplicate port name or SPI settings rejection |
| Replay.RegistrationReplays | kernel/sensorium-runtime-uart.c:86-131 | a port of an accepted model finds its slot free; registration succeeds if and only if its index is within the port limit |
| Replay.DeviceReplays | src/sensorium/runtime/inventory.py:132-201 | the next device is accepted if and only if it is within the kernel limits, and the kernel then mirrors the daemon |
| Replay.ModelReplays | src/sensorium/runtime/inventory.py:203-219 | an accepted model replays into a reset kernel if and only if its names and numbers are within the kernel limits; the kernel then mirrors it exactly |
| Daemon.AgreementDeterminesTheKernel | src/sensorium/runtime/inventory.py:203-219 | at most one consistent kernel agrees with an inventory, so agreement is equality |
| Daemon.SnapshotGrows | src/sensorium/runtime/state.py:263-273 | recording one more attachment keeps the snapshot that of the devices seen |
| Daemon.SnapshotServes | src/sensorium/runtime/state.py:346-373 | no backend of a snapshot can fail to attach again |
| Daemon.SnapshotStep | src/sensorium/runtime/backends.py:27-48 | attaching a snapshot backend puts back exactly its attachments |
| Daemon.AttachableIffValid | src/sensorium/runtime/state.py:346-373 | validation of a snapshot succeeds if and only if every attached device is still an unmanaged controller |
| Daemon.SameHandles | src/sensorium/runtime/inventory.py:132-201 | replaying the same model gives the same handles and the same handle index |
| Daemon.PartialIsConsistent | src/sensorium/runtime/inventory.py:98-114 | a prefix of a well-formed inventory is well-formed |
| Daemon.BackendIsNotInventory | src/sensorium/runtime/backends.py:50-120 | changing a backend changes nothing the kernel mirrors |
| Daemon.RuntimeManager.Apply | src/sensorium/runtime/inventory.py:221-287 | success is the normal form of the model under the next generation, and while no request to the world fails it succeeds if and only if the model is accepted and within the limits of the kernel; a failure ends with exactly the previous buses, devices, attachments, handle index, name and generation, or desynced, and desynced if and only if a request of cleanup or rollback fails or an attachment is no longer valid; a desynced daemon refuses |
| Daemon.RuntimeManager.TryApply | src/sensorium/runtime/inventory.py:236-243 | the try arm succeeds for a model within the limits unless exactly one request fails |
| Daemon.RuntimeManager.CleanUp | src/sensorium/runtime/inventory.py:244-287 | the failure arm puts back exactly the previous inventory, or ends desynced if and only if a request fails or an attachment is no longer valid |
| Daemon.RuntimeManager.RollBack | src/sensorium/runtime/inventory.py:245-287 | rollback restores inventory, attachments and generation if every attachment is still valid and no request fails, and ends desynced otherwise |
| Daemon.RuntimeManager.DiscardAfterFailure | src/sensorium/runtime/inventory.py:98-114 | cleanup ends with an empty kernel and daemon, or desynced with nothing touched |
| Daemon.RuntimeManager.Reset | src/sensorium/runtime/inventory.py:87-96 | a reset succeeds if and only if the daemon is not desynced and the write does not fail; it empties both sides or changes nothing |
| Daemon.RuntimeManager.Resync | src/sensorium/runtime/state.py:422-450 | a resync succeeds if and only if every attached device is still an unmanaged controller and no request fails; it restores exactly the inventory under the next generation, ends desynced with a prefix of it, or is refused unchanged |
| Daemon.RuntimeManager.Attach | src/sensorium/runtime/backends.py:122-127 | all or nothing: attaches exactly the listed devices if every one may be served, otherwise none |
| Daemon.RuntimeManager.Detach | src/sensorium/runtime/backends.py:129-144 | detaches exactly the listed devices of that backend, or all of them when none is listed |
| Daemon.RuntimeManager.UpdateBackend | src/sensorium/runtime/backends.py:50-120 | replaces the backend even when the call then fails, and keeps the attachment; it fails exactly for an attached device that becomes managed, or when the modem defaults of a UART template cannot be written |
| Daemon.RuntimeManager.SnapshotAttachments | src/sensorium/runtime/state.py:263-273 | the snapshot records exactly the attachments of the devices |
| Daemon.RuntimeManager.RestoreAttachments | src/sensorium/runtime/inventory.py:203-219 | restoring a snapshot on detached devices gives back exactly the devices it was taken of |
| DaemonRuns.PerformAll | src/sensorium/runtime/backends.py:50-144 | every sequence of operations, whatever writes fail, is a run: the kernel stays consistent and agrees with the daemon at every point not desynced, and each outcome is one the operation allows |
| DaemonRuns.NothingFailsNothingDesyncs | src/sensorium/runtime/inventory.py:221-287 | over every run in which no request fails, nothing reports a desync and no backend is changed, the daemon is never desynced and each apply succeeds if and only if its model is accepted and within the limits |
| DaemonRuns.OnlyResyncRecovers | src/sensorium/runtime/state.py:148-152 | between a desynced point of a run and a later one that is not there is a successful resync |
| DaemonRuns.DesyncedIsFrozen | src/sensorium/runtime/state.py:148-152 | a desynced daemon keeps everything, on both sides, until the next resync |
| DaemonRuns.DesyncedForGood | src/sensorium/runtime/state.py:422-432 | desynced while an attached device is not an unmanaged controller is for the rest of the run |
| DaemonRuns.SameInventorySameKernel | src/sensorium/runtime/inventory.py:203-219 | two points of a run that are not desynced and have the same inventory have the same kernel |
| DaemonRuns.GenerationCountsSuccesses | src/sensorium/runtime/inventory.py:203-287 | the generation counts exactly the successful applies, resets and resyncs |
| DaemonRuns.ResyncRefusedAfterTemplate | src/sensorium/runtime/backends.py:50-127 | in any ready daemon, attaching a controller and then making it a template leads to a refused resync |
| UartModel.TransmitIsExactlyOnce | kernel/sensorium-runtime-uart-queue.c:159-210 | over every run whose resets find the work item at rest, the accepted bytes are those sent followed by the queue behind its in-flight part, with writers at any point |
| UartModel.ResetIsCalmIff | kernel/sensorium-runtime-uart-queue.c:142-150 | a flush or carrier drop keeps the transmit invariant if and only if the work item is not between copy-out and commit |
| UartLoss.ResetDuringSendDiscards | kernel/sensorium-runtime-uart-queue.c:142-206 | after a flush or carrier drop between copy-out and commit, with n bytes out, the next round discards unsent exactly the first min(n, accepted since) bytes, so bytes are lost if and only if any were accepted before it, and the rest is again in order |
| UartLoss.ByteLostByResetDuringSend | kernel/sensorium-runtime-uart-queue.c:184-206 | a concrete run in which a carrier drop during a send makes the next accepted byte vanish |
| UartModel.FailureDisconnects | kernel/sensorium-runtime-uart-queue.c:142-157 | a dropped carrier and a failed send disconnect the port and empty its queue |
| UartModel.FlushEmpties | kernel/sensorium-runtime-uart-tty.c:208-225 | a flush empties the queue of a connected port |
| UartModel.DisconnectedAcceptsNothing | kernel/sensorium-runtime-uart-tty.c:72-100 | until it recovers a disconnected port accepts nothing and starts no chunk, over every run |
| UartModel.RecoveredAccepts | kernel/sensorium-runtime-uart-tty.c:72-100 | after recovery a write is accepted up to the room there is |
| UartModel.RoundSendsNextChunk | kernel/sensorium-runtime-uart-queue.c:159-210 | one round of the work item sends exactly the next chunk |
| UartModel.EverythingAcceptedIsSent | kernel/sensorium-runtime-uart-queue.c:159-210 | enough rounds send everything accepted, once and in order |
| UartModel.ReceiveKeepsOrder | kernel/sensorium-runtime-uart-queue.c:212-258 | delivered plus queued grows by a prefix of the injected bytes, and a suffix is lost only when the queue was filled |
| UartModel.ReceiveRunKeepsOrder | kernel/sensorium-runtime-uart-queue.c:212-258 | over every run of injections, throttling and unthrottling the delivered and queued bytes are the kept prefixes in order |
| Uart.WriteBehindAppends | kernel/sensorium-runtime-uart-queue.c:21-42 | writing behind the newest byte, in up to two pieces, appends to the queue |
| Uart.AdvanceDrops | kernel/sensorium-runtime-uart-queue.c:63-73 | moving the head drops the oldest bytes |
| Uart.UartPort.TxCopyIn | kernel/sensorium-runtime-uart-queue.c:21-42 | accepts as much as there is room for, and appends exactly that |
| Uart.UartPort.TxCopyOut | kernel/sensorium-runtime-uart-queue.c:44-61 | copies the oldest bytes out without removing them |
| Uart.UartPort.TxConsume | kernel/sensorium-runtime-uart-queue.c:63-73 | drops exactly the oldest bytes |
| Uart.UartPort.Write | kernel/sensorium-runtime-uart-tty.c:72-100 | the number of bytes accepted, or the stored error; the queue grows by exactly those |
| Uart.UartPort.WorkBegin | kernel/sensorium-runtime-uart-queue.c:159-182 | retires the previous chunk and copies out the next, as the model does |
| Uart.UartPort.Commit | kernel/sensorium-runtime-uart-queue.c:196-209 | marks the sent chunk in flight, as the model does |
| Uart.UartPort.RxDrain | kernel/sensorium-runtime-uart-queue.c:243-258 | hands over a prefix of the queue in order, nothing while throttled, and all of it to a tty that takes what it is offered; the loop terminates |
| Uart.UartPort.Inject | kernel/sensorium-runtime-uart-queue.c:212-258 | every injection is a step of the receive model; an unthrottled one to a tty that takes what it is offered leaves nothing queued, and delivers all its bytes if nothing was |
| Uart.UartPort.Unthrottle | kernel/sensorium-runtime-uart-tty.c:196-206 | unthrottling is a step of the receive model, and delivers the whole queue to a tty that takes what it is offered |
| I2cModel.DecodeEncode | src/sensorium/runtime/i2c.py:12-62 | unpacking a packed request gives back the messages, for every list of 1 to 256 |
| Wire.ReadsBack32 | src/sensorium/runtime/bridge_protocol.py:79-85 | little-endian words read back |
| BankModel.ReadBackReturnsWritten | src/sensorium/runtime/templates.py:26-58 | registers written in one message read back after selecting their start, when no effect is configured |
| BankModel.ServedIsDirect | src/sensorium/runtime/templates.py:26-58 | the template run over the unpacked messages leaves the bank as the messages run directly do, with a reply of exactly the length of the reads |
| BankModel.PartIsDirectRead | kernel/sensorium-runtime-i2c.c:104-110 | each read message gets from the joined reply what it reads directly |
| TransferModel.TransferRunsOnTheBank | kernel/sensorium-runtime-i2c.c:24-118 | without a fault a transfer that fits returns its count, never -EPROTO, leaves the bank as run directly, and fills each read message with what it reads directly |
| TransferModel.TransferTimesOutIff | kernel/sensorium-runtime-i2c.c:54-100 | without a fault the bank runs the messages and the transfer returns its count if the reply fits a payload, and -ETIMEDOUT for the last eight read lengths the kernel sends, whose reply is never written |
| TransferModel.ShortReplyIsProtocolErrorIff | src/sensorium/runtime/internal.py:68-78 | under a short-reply fault a transfer is -ETIMEDOUT if the injected reply exceeds a payload, and otherwise -EPROTO if and only if the injected bytes, or half of a reply of two bytes or more, do not fill the reads |
| TransferModel.HardFaultsSpareTheBank | src/sensorium/runtime/internal.py:52-66 | timeout, disconnect and errno faults never reach the bank, and the transfer returns -ETIMEDOUT, -ENODEV or the errno; an errno of zero is an empty reply |
| BankLaws.ReadAfterRead | src/sensorium/runtime/templates.py:26-41 | a read after a read starts behind the first with auto-increment and where the first did without, and gets zero from the registers the first has cleared |
| BankLaws.ReadsJoin | src/sensorium/runtime/templates.py:26-41 | without clear-on-read and with auto-increment two reads are one read of both lengths |
| BankLaws.ReadsRepeat | src/sensorium/runtime/templates.py:26-41 | without auto-increment every read starts at the same register |
| BankLaws.ClearOnReadReadsOnce | src/sensorium/runtime/templates.py:33-36 | a register that is cleared on reading gives zero the second time |
| BankLaws.PointerBytes | src/sensorium/runtime/templates.py:48-49 | the pointer bytes come most significant first |
| BankLaws.WriteSetsPointer | src/sensorium/runtime/templates.py:42-57 | a write selects a register; the next access starts behind what was written with auto-increment, and at the selected register without; a shorter one changes nothing |
| BankLaws.WritesFollowOneAnother | src/sensorium/runtime/templates.py:50-55 | writing one byte more stores it in the next register and then fires the effects of that register |
| BankLaws.LastEffectWins | src/sensorium/runtime/templates.py:54-55 | of several effects on one register the last decides, and a register no effect names keeps its value |
| BankLaws.TrailingReadsAreOneRead | src/sensorium/runtime/templates.py:26-58 | read messages after any others read on as one read of all their bytes |
| BankLaws.ReadTransferIsConsecutive | kernel/sensorium-runtime-i2c.c:24-118 | a transfer of reads gets consecutive registers from the pointer on, whatever the reads are cut into, and moves the pointer behind them |
| BankLaws.SelectThenRead | kernel/sensorium-runtime-i2c.c:24-118 | a transfer of a register address and then reads gets consecutive registers from the addressed one on |
| BankLaws.KernelRefusals | kernel/sensorium-runtime-i2c.c:41-60 | no message, more than 256, or two addresses are -EOPNOTSUPP, and requests or reads beyond a payload -EMSGSIZE, without effect |
| BankLaws.OtherDevicesAreSpared | src/sensorium/runtime/i2c.py:12-87 | a missing device is -ENOENT and another address -EOPNOTSUPP, without effect |
| BankLaws.FaultFiresAsOftenAsSet | src/sensorium/runtime/internal.py:42-51 | a fault fires exactly as often as it says, for ever if it says zero, and stays the same fault until then |
| I2cDevice.RegisterBank.constructor | src/sensorium/runtime/templates.py:8-24 | a zeroed bank with the initial registers and the pointer at zero |
| I2cDevice.RegisterBank.ReadRegisters | src/sensorium/runtime/templates.py:29-40 | returns the registers from the pointer on, then clears those marked, then moves the pointer |
| I2cDevice.RegisterBank.WriteRegisters | src/sensorium/runtime/templates.py:42-57 | selects the pointer and writes byte by byte with effects; shorter writes are ignored |
| I2cDevice.RegisterBank.HandleI2c | src/sensorium/runtime/templates.py:26-58 | the message loop is the run of the model |
| I2cDevice.Unpack | src/sensorium/runtime/i2c.py:12-62 | the two parsing loops compute the specification parser, refusals included |
| I2cDevice.I2cDaemon.HandleI2cRequest | src/sensorium/runtime/i2c.py:12-87 | status, reply and device state are those of the model in every branch |
| Faults.FaultPlan.ApplyPre | src/sensorium/runtime/internal.py:52-66 | the status a fault answers with, and what is left of the fault |
| Faults.FaultPlan.ApplyPost | src/sensorium/runtime/internal.py:68-78 | the shortened reply, and what is left of the fault |
| I2cTransfer.Measure | kernel/sensorium-runtime-i2c.c:44-52 | one address, and the exact bytes to send and to receive |
| I2cTransfer.Pack | kernel/sensorium-runtime-i2c.c:54-82 | the filled buffer is the wire form of the messages |
| I2cTransfer.Scatter | kernel/sensorium-runtime-i2c.c:104-110 | each read buffer holds its part of the reply |
| I2cTransfer.I2cExec | kernel/sensorium-runtime-i2c.c:24-118 | return value, device state and read buffers are those of the modelled transfer; a failure leaves all buffers alone |
| SpiModel.DecodeEncode | src/sensorium/runtime/spi.py:59-202 | unpacking a packed message gives back its transfers, with zeros where nothing is sent, unless a non-empty transfer has words above 32 bits |
| SpiModel.NoRefusal | src/sensorium/runtime/spi.py:136-185 | a packed transfer is refused only for its word size |
| SpiScript.EarliestPrefixWins | src/sensorium/runtime/templates.py:107-114 | the first listed prefix that fits decides, and there is no response exactly when none fits |
| SpiScript.StatusWriteIsBusyThenDone | src/sensorium/runtime/templates.py:79-104 | after an enabled status write the busy bit shows for exactly the configured number of status reads; without the enable nothing changes |
| SpiScriptLaws.StatusReadShowsLatches | src/sensorium/runtime/templates.py:87-94 | a status read repeats one byte with the upper six bits of the status register, the write-enable latch and the busy bit, and uses up one busy cycle |
| SpiScriptLaws.ReadIdReturnsId | src/sensorium/runtime/templates.py:95-96 | the identification is read back, padded with zeros, and changes nothing |
| SpiScriptLaws.OtherOpcodesAreNeutral | src/sensorium/runtime/templates.py:102-103 | any other opcode changes nothing and is echoed or answered by default |
| SpiScriptLaws.ScriptAnswersInOrder | src/sensorium/runtime/templates.py:104-122 | without a flash an exact response comes before a prefix, a prefix before the echo, and the echo before the default |
| SpiScriptLaws.LatchIsTheLastWord | src/sensorium/runtime/templates.py:79-104 | after any history of transfers writing is enabled if and only if the last one that set or cleared the latch set it |
| SpiScript.ScriptWithoutFlashIsStateless | src/sensorium/runtime/templates.py:105-128 | without a flash id the script keeps no state, and every transfer is answered as if it were the first |
| SpiScript.HandleAll | src/sensorium/runtime/templates.py:124-128 | the reply to a message always has the total length of its transfers |
| SpiScript.SpiScriptTemplate.HandleSpi | src/sensorium/runtime/templates.py:79-122 | the branches and latches compute the specification, padded or cut to the length |
| SpiScript.SpiScriptTemplate.HandleSpiMessage | src/sensorium/runtime/templates.py:124-128 | the transfers are answered in order |
| SpiTransferModel.PartIsDirectReply | kernel/sensorium-runtime-spi.c:191-196 | each transfer gets from the joined reply what the script answers its bytes |
| SpiTransferModel.TransferRunsTheScript | kernel/sensorium-runtime-spi.c:90-204 | without a fault a message is refused exactly for words above 32 bits; otherwise it returns its byte count, never -EPROTO, and each transfer clocks in the script answer |
| SpiTransferModel.HardFaultsSpareTheScript | src/sensorium/runtime/internal.py:52-66 | timeout, disconnect and errno faults never reach the script, and the message returns -ETIMEDOUT, -ENODEV or the errno |
| SpiTransferModel.ShortReplyIsProtocolErrorIff | src/sensorium/runtime/internal.py:68-78 | under a short-reply fault a message is -ETIMEDOUT if the injected reply exceeds a payload, and otherwise -EPROTO if and only if the injected bytes, or half of a reply of two bytes or more, do not fill it |
| SpiTransferModel.EmptyMessageIsRefused | src/sensorium/runtime/spi.py:62-63 | the packed form of a message without transfers is always refused |
| SpiTransfer.SpiDevice.UnpackTransfers | src/sensorium/runtime/spi.py:118-202 | the validation loop returns the transfers, or the status of the first one refused |
| SpiTransfer.SpiDaemon.HandleSpiRequest | src/sensorium/runtime/spi.py:44-217 | status, reply and device state are those of the model in every branch |
| SpiTransfer.Pack | kernel/sensorium-runtime-spi.c:119-169 | the filled buffer is the wire form of the message; packing gives up exactly when a lane width is unsupported |
| SpiTransfer.Scatter | kernel/sensorium-runtime-spi.c:191-196 | each receive buffer holds its part of the reply |
| SpiTransfer.SpiExecMessage | kernel/sensorium-runtime-spi.c:90-204 | return value, device state and receive buffers are those of the modelled transfer; a failure leaves the receive buffers alone |
| UartScript.LinesOfAppend | src/sensorium/runtime/templates.py:167-174 | lines of an appended buffer are those of the first part, then those of its rest with the second |
| UartScript.ChunkingIsInvisible | src/sensorium/runtime/templates.py:159-179 | a script of line responses gives the same bytes and the same buffer for every chunking of its input |
| UartScript.BufferIgnoresChunking | src/sensorium/runtime/templates.py:159-179 | with any options the buffer does not depend on the chunking |
| UartScript.EchoSeesChunkingUnlessItCommutes | src/sensorium/runtime/templates.py:159-165 | with echo on two calls and one agree if and only if the first answer commutes with the second chunk |
| UartScript.EchoIgnoresSilentChunks | src/sensorium/runtime/templates.py:159-179 | with echo on, a chunk that completes no answered line can be joined with whatever follows |
| UartScript.EchoShowsAnsweredChunks | src/sensorium/runtime/templates.py:159-179 | with echo on, a chunk that completes an answered line is told apart by a following byte that differs from the answer |
| UartScript.EchoWitness | src/sensorium/runtime/templates.py:159-179 | a script that answers two chunks differently from their concatenation |
| UartScript.BinaryOrDefault | src/sensorium/runtime/templates.py:159-179 | without echo and lines a chunk is answered by the response to exactly its bytes, or by default |
| UartScript.DefaultAnswersEverything | src/sensorium/runtime/templates.py:176-177 | with a default response no chunk goes unanswered, and it is the answer to a chunk nothing else answers |
| UartScript.AnswersInOrder | src/sensorium/runtime/templates.py:159-177 | echo, binary response and line replies come in this order |
| UartScript.UartScriptTemplate.HandleUart | src/sensorium/runtime/templates.py:159-179 | reply and buffer of a call are those of the model |
| CameraModel.SourceBuffersAreConserved | kernel/sensorium-camera-core.c:284-388 | after any run each queued source buffer is in exactly one of list, held slot and returned, and was returned at most once |
| CameraModel.TargetsReturnInOrderAndHeldFits | kernel/sensorium-inject.c:213-245 | after any run target buffers came back in queueing order, and a held buffer is no smaller than the current layout |
| CameraModel.FramesAreConsecutive | kernel/sensorium-capture.c:45-59 | frames since the capture start are numbered from zero without gaps, modulo 2^32 |
| CameraModel.StepKeepsInv | kernel/sensorium-camera-core.c:301-388 | every callback and every part of the frame work keeps ownership, layout, numbering, and frame sizes within both buffers |
| CameraModel.StopReturnsEverything | kernel/sensorium-inject.c:71-89 | stopping a node returns everything it was given |
| CameraReturns.DoneTargetsAreDelivered | kernel/sensorium-camera-core.c:284-388 | over every run the target buffers that came back done are those of the delivered frames, in order |
| CameraReturns.DoneSourcesWereDelivered | kernel/sensorium-camera-core.c:284-388 | over every run a source buffer comes back done only when a frame was delivered from it |
| CameraReturns.RepetitionHoldsTheLastSource | kernel/sensorium-camera-core.c:350-380 | a frame from the source list holds its buffer for repetition and returns the one held before, or without repetition returns it at once |
| CameraReturns.HeldIsRepeated | kernel/sensorium-camera-core.c:350-380 | with nothing new the held buffer is delivered again and stays held |
| CameraStart.FirstFrameIsDelivered | kernel/sensorium-camera-core.c:390-425 | from power-on a source and a target buffer of the demanded sizes give frame number zero |
| CameraStart.InjectFormatApplies | kernel/sensorium-inject.c:213-245 | an idle inject node takes any mode and format |
| CameraStart.BusyInjectKeepsFormat | kernel/sensorium-inject.c:213-245 | a busy one changes neither |
| CameraStart.ModeApplies | kernel/sensorium-sensor.c:129-142 | the mode follows the capture node while that is idle, and the sensor while it is stopped |
| CameraModel.StreamsNeverStall | kernel/sensorium-camera-core.c:272-282 | while both nodes stream and a target waits the frame work is scheduled or running, as long as the sensor is not switched off |
| CameraModel.StepKeepsStreamingIff | kernel/sensorium-sensor.c:206-223 | a step stalls a running stream if and only if it switches the sensor off while a frame is due and no work runs |
| CameraModel.RoundDeliversFrame | kernel/sensorium-camera-core.c:390-425 | a round of the work delivers the next frame, from the first source buffer or the held one |
| Camera.SensorDevice.TryDeliverFrame | kernel/sensorium-camera-core.c:301-388 | list moves, held slot and sequence number are those of the model, and the result tells whether a frame was delivered |
| Camera.SensorDevice.DropShortBuffers | kernel/sensorium-camera-core.c:333-348 | returns exactly the leading buffers that are too short |
| Camera.SensorDevice.InjectReturnAll | kernel/sensorium-inject.c:60-89 | the held buffer and then the whole list go back as errors |
| Camera.SensorDevice.InjectSetFmt | kernel/sensorium-inject.c:213-245 | refused without effect while busy, otherwise mode, format and layout change and the held buffer goes back with the mode |
| Camera.SensorDevice.SensorApplyMode | kernel/sensorium-sensor.c:129-142 | the mode changes, the held buffer goes back, the layout follows |
| Camera.AdvanceClock | kernel/sensorium-camera-core.c:413-419 | the next frame time is the first point of the grid after now that is at least one interval on |
| Bayer.ScaledIsRounded | kernel/sensorium-core.c:209-211 | the table entry is the sample scaled to ten bits and rounded to nearest, with 0 and 255 mapped to 0 and 1023 |
| Bayer.BayerConverter.ConvertRow | kernel/sensorium-camera-core.c:175-191 | the two-pixel loop writes the mosaic of the even part of a row and nothing else |
| Bayer.BayerConverter.Convert | kernel/sensorium-camera-core.c:163-193 | all rows are converted, a last odd column and everything behind the frame are left alone |
| Bayer.ToolConvert | tools/rgb24-to-rggb10.cpp:78-95 | the per-pixel loop writes the mosaic of the frame, shifted |
| Bayer.KernelAgreesWithTool | kernel/sensorium-camera-core.c:163-193 | for every layout, width and height both conversions agree in every pixel of even-width frames, samples are at most 1023, and an odd last column is not written by the kernel |
| SensorModes.ProfilesAreEven | kernel/sensorium-family-imx.h:33-115 | every mode of every profile has an even width |
| SensorModes.FindMode | kernel/sensorium-config.c:169-187 | the loop returns the mode of the requested size, or the first of the profile, so a mode of even width |
| SensorModes.DemandedSizesHoldTheFrame | kernel/sensorium-camera-core.c:163-193 | buffers of the demanded sizes hold a whole image and a whole mosaic |
| SensorModes.KernelAgreesWithToolInEveryMode | kernel/sensorium-camera-core.c:163-193 | in every mode a profile offers the two conversions agree in every pixel |
| RpcModel.StartKeepsInv | src/sensorium/runtime/rpc.py:434-456 | starting the first pending request of an idle client, as a poll or a call, answered busy or not, keeps its order |
| RpcProofs.DispatchOnKeepsInv | src/sensorium/runtime/rpc.py:434-456 | a dispatch loop keeps slots, counts and order, with workers releasing slots and posting responses between its requests |
| RpcModel.DispatchLeavesNoBacklog | src/sensorium/runtime/rpc.py:441-448 | after a dispatch an idle client has a backlog only if its last start was a poll answered at once |
| RpcAnswers.DispatchAddsAnswers | src/sensorium/runtime/rpc.py:434-456 | a dispatch only adds answers, and none of them is busy while a slot is free |
| RpcAnswers.CallRunsOrIsBusy | src/sensorium/runtime/rpc.py:448-456 | the first pending call of an idle client runs if a slot is free, and is answered busy if none is and none comes |
| RpcAnswers.PollIsAnsweredOrWaits | src/sensorium/runtime/rpc.py:441-447 | the first pending poll is answered at once if an event is there, and waits otherwise |
| RpcAnswers.CompletedIsNotBusy | src/sensorium/runtime/rpc.py:469-479 | a completed request is answered, and not busy |
| RpcAnswers.WaiterIsNotBusy | src/sensorium/runtime/rpc.py:504-528 | a waiting poll is answered when it is due, and not busy |
| RpcAnswers.WorkerCompletes | src/sensorium/runtime/rpc.py:458-464 | the run of a worker gives its slot back and then ends in the completion queue |
| RpcAnswers.LinesAreQueued | src/sensorium/runtime/rpc.py:371-418 | a client is cut off if and only if its calls exceed its queue; otherwise all are queued in order, and each malformed line is answered by a parse error |
| RpcAnswers.AcceptOpensClient | src/sensorium/runtime/rpc.py:306-325 | a connection is accepted if and only if there are fewer clients than allowed |
| RpcProofs.StepKeepsInv | src/sensorium/runtime/rpc.py:434-528 | accept, read, dispatch, worker steps, completion, waiter and close keep slots, client counts and per-client order |
| RpcProofs.RpcIsOrderedAndBounded | src/sensorium/runtime/rpc.py:434-528 | over every run executing requests plus free slots are the worker count, clients are counted and bounded, and each open client has at most one request executing or waiting, with one answer each for its first requests, in order |
| Rpc.RpcServer.DispatchPending | src/sensorium/runtime/rpc.py:434-456 | the dispatch loop, asking for a slot once per request, computes the specification |
| Rpc.RpcServer.ServiceClient | src/sensorium/runtime/rpc.py:371-418 | reading complete lines and dispatching is one step of the model |
| Rpc.RpcServer.DrainCompletion | src/sensorium/runtime/rpc.py:469-479 | one completion answers its client and starts its next request |
| Rpc.RpcServer.ServiceEventWaiter | src/sensorium/runtime/rpc.py:504-528 | an event or a deadline answers the waiting request and starts the next |
| Rpc.RpcServer.ReleaseSlot | src/sensorium/runtime/rpc.py:458-464 | a finished request gives its slot back before its response is queued |

## Left out

- Memory barriers, mmap, ioctls, eventfds and real tty, i2c, spi and V4L2 registration: memory is sequentially consistent, and what these services decide is a parameter or a nondeterministic choice.
- Allocation failure and object lifetime: pointers to kernel objects are handles or serial numbers.
- Counters of the control and reply rings above 2^32 in arbitrary interleavings: beyond it those rings are modelled in lock step (`LockStep`), as the lock of the daemon makes them run.
- The status with which the kernel answers a submit ioctl: a refused command has left the ring like any other, and its effects are part of the kernel inventory.
- A bridge write that fails after the kernel has acted on it: a failing write leaves the kernel alone.
- Interleaving of two daemon operations: each runs as a whole here, although apply, reset and resync release the lock of the daemon around the reset command.
- Managed worker subprocesses, the degraded state, backend liveness, snapshot files, traces, statistics, health text and logs.
- `device.update` of anything but the backend, and the merge of patches.
- RuntimeModel.ExportRoundTrips: template options, faults, the words of a worker command and UART settings are normalized again too, but are not in the model, so nothing is said about refusals of them.
- RuntimeModel.NormalizeDevices: refusals of those same fields are not in the model.
- Whitespace stripping, YAML typing, schema versions and Unicode digits in models: names are sequences of characters and numbers are already parsed.
- The lookup of attachments across several backends that name the same device: validation here follows the devices, which carry one attachment each.
- UART line settings, modem signals, drain delays and wakeups: they do not touch the queues.
- Requests to controller backends: only template devices answer, with the faults that can be injected into them.
- Decoding of UART lines as UTF-8: a script looks stripped lines up by their bytes.
- Delivery of transfer requests and replies inside a transfer: the bridge theorems cover it; here a reply that exceeds the payload limit is one that never arrives.
- Sharing of one buffer between two read messages of a transfer: read buffers are distinct, while a read may share its buffer with a write.
- Frame timestamps, the sensor controls and the wall clock: the frame clock is modelled only as its advance to the next grid point.
- Pixel contents inside the camera state machine: buffers there have sizes only, and the conversion is proved separately.
- RPC sockets, partial lines, JSON decoding, malformed poll parameters, and a client that breaks while a response is being queued.
- The command-line tools, the IIO bounce, the SMBus alias and the trace queue.
