# Proofs about the mozart device's stateful components

This project models, in Dafny, the parts of the Huawei MediaPad M2 (mozart) device tree and its
platform patches that keep state across calls or threads, and proves what they guarantee.

| file | what it models |
|---|---|
| `SensorQueue.dfy` | the fixed-size circular queue between one sub-HAL and `poll()` |
| `SensorHandles.dfy` | global sensor handles and the start-up loop that assigns them |
| `PollScan.dfy` | one round-robin scan of `poll()` as a function, and its properties |
| `PollLoop.dfy` | the scan as the loop the source runs, over queue objects and a buffer |
| `MultiHal.dfy` | writer threads and the caller of `poll()` interleaved |
| `DeferredBatch.dfy` | `activate` and `batch` for sub-HALs older than API 1.1 |
| `LegacyImports.dfy` | the cache of imported buffer clones behind lock and unlock |
| `StillCapture.dfy` | the gate that holds requests back during a legacy JPEG capture |
| `StreamConfigurations.dfy` | the stream tables derived for a legacy camera |
| `DssLayer.dfy`, `Overlay.dfy` | the DSS overlay adapter: validate, accept, present, error latch |
| `PowerBoost.dfy` | interaction boosts, cancellation, the low-power veto, the boost worker |
| `CameraMetadata.dfy` | buffer ownership, growth and locking of the legacy metadata object |
| `MacAddress.dfy` | parsing, printing, generating and storing the fallback MAC address |
| `Runs.dfy`, `Floats.dfy`, `Options.dfy` | runs of a transition system, 32-bit float rounding, optional values |

## How it is built

Each stateful component comes in three layers. A datatype holds its value, with one function per
operation. A class holds the fields the source updates, and every method is proved to compute that
function, loops included. Where threads meet, a transition system interleaves the same functions:
one step is one critical section, or one action outside any lock. `Next` is the step relation,
`Reaches(Next, s, t)` says that some run takes `s` to `t`, `Reachable(s)` that one does so from the
initial state, and the theorems hold for every reachable state or every run. A sleeping thread may
be resumed at any step, so spurious wake-ups are part of every run. Logs in a state (`produced`,
`taken`, `calls`, `log`) record what happened, so that properties of histories are stated on what
was called and answered rather than on the component's own variables.

System calls, the kernel mapper, the camera HAL and the frame buffer device appear as outcomes that
a step or a method receives, so that every answer they may give is covered.

## Where the code does not do what one would expect

- The two handle maps are inverse to each other exactly if no sub-HAL lists a handle twice
  (`MutualInverseIffDistinct`).
- An event is dropped by its outer sensor field: a metadata event for an unknown sensor is passed
  on, with handle -1 inside (`DroppedIff`).
- A call to `poll()` with `maxReads <= 0` never returns (`NoRoomNeverReturns`).
- A saved batch period is narrowed to 32 bits; the sub-HAL gets the requested one exactly if it
  was not saved or fits (`EnabledRunsAtLastRequest`).
- Short of 2^32 nested locks, the count of an import is that of all open locks exactly if the mapper
  has granted none of them on the raw handle itself (`CountIsOpenLocks`, `OnlyRawGrantsMiscount`).
  Otherwise an unlock of such a lock may take the clone away under another thread's lock
  (`ForeignUnlockFreesClone`). That run needs a mapper that grants a raw handle and then, with that
  lock open and nothing freed, answers BAD_BUFFER for the same handle; nothing here says that a mapper
  does or does not.
- The 2^32nd nested lock of one import makes its count zero, and the unlock after it frees the clone
  (`ZeroCountOnlyByOverflow`, `OverflowFreesLockedClone`). Short of that every entry counts at least
  one lock, so `freeBuffer`'s warning fires for whatever entry it finds.
- `README.md:56-65` of the repository says the overlay shows YUV video only. The format is looked
  at by validation alone: it holds while the chosen layer keeps its buffer (`KeptBufferPlaysYuv`),
  and a buffer set afterwards is played whatever its format, the display still counting as validated
  (`RgbCanBePlayed`).
- The position of a source crop is rounded once and its extent twice, to a float and to a whole
  number, and a layer may read past its buffer (`Overshoots`, `SourceInsideBufferIff`,
  `AcceptedCropsOvershoot`). On buffers up to 2^23 pixels wide and high it does, by one pixel, exactly
  if on one axis the crop starts in the second half of a pixel, and what it starts past the half pixel
  and stays away from the far edge add up to less than half the float spacing of the extent, or just
  that, unless the spacing is half a pixel (`OvershootsIffRoomLost`). A crop that starts on a whole
  pixel never does on buffers up to 2^24 (`FirstHalfFits`, `WholePixelsMayOvershoot`).
- Hardware writes happen after the boost lock is released, so a cancellation may overtake the write
  of an earlier request and leave the hardware boosted with no boost active
  (`RacingCallsLeaveHardwareBoosted`). That is possible exactly from the moment a request and an end
  of the boost leave the lock with the other's write still due (`StepKeepsHardwareIff`); calls of one
  kind may overlap freely.
- A CameraMetadata object that acquires the buffer it already holds frees it and keeps the pointer
  (`AcquireDanglesIffOwn`).

## Model

| member | source | states |
|---|---|---|
| SensorQueue.RegionIsMaximalAndDisjoint | device/huawei/mozart/sensors/SensorEventQueue.h:34-47 | the region handed out is inside the array, free of readable records, and the longest contiguous one within the request |
| SensorQueue.DequeueKeepsReservation | device/huawei/mozart/sensors/SensorEventQueue.cpp:64-71 | dequeuing leaves a writer's region where it is, its own, and in front of the next free slot |
| SensorQueue.DequeueDropsOldest | device/huawei/mozart/sensors/SensorEventQueue.cpp:64-71 | dequeuing removes the oldest record and keeps the others in order |
| SensorQueue.StoreInReservationKeepsContents | device/huawei/mozart/sensors/SensorEventQueue.cpp:29-49 | writing into a reserved region without the lock changes nothing the reader can see |
| SensorQueue.CommitAppendsRegion | device/huawei/mozart/sensors/SensorEventQueue.cpp:51-53 | committing the first n records of the region appends exactly those records to the queue |
| SensorQueue.SensorEventQueue.constructor | device/huawei/mozart/sensors/SensorEventQueue.cpp:14-21 | a new queue is empty and has the given capacity |
| SensorQueue.SensorEventQueue.GetWritableRegion | device/huawei/mozart/sensors/SensorEventQueue.cpp:29-49 | no region if full or nothing is asked for; otherwise a non-empty region reserved after the readable records |
| SensorQueue.SensorEventQueue.FillRegion | device/huawei/mozart/sensors/multihal.cpp:150-158 | a sub-HAL that stores into its region without the lock leaves the queue as the reader sees it, and the region holds what it stored |
| SensorQueue.SensorEventQueue.MarkAsWritten | device/huawei/mozart/sensors/SensorEventQueue.cpp:51-53 | appends what was written to the region's front |
| SensorQueue.SensorEventQueue.GetSize | device/huawei/mozart/sensors/SensorEventQueue.cpp:55-57 | the number of readable records |
| SensorQueue.SensorEventQueue.Peek | device/huawei/mozart/sensors/SensorEventQueue.cpp:59-62 | the oldest record, none exactly if the queue is empty |
| SensorQueue.SensorEventQueue.Dequeue | device/huawei/mozart/sensors/SensorEventQueue.cpp:64-71 | drops the oldest record, keeps every reservation, and wakes the writer exactly if the queue was full and not empty |
| SensorHandles.RegisterAllNumbersInOrder | device/huawei/mozart/sensors/multihal.cpp:82-90 | handles are 1, 2, 3 ... in registration order, never reused; a pair registered twice is looked up under its last number |
| SensorHandles.MutualInverseIffDistinct | device/huawei/mozart/sensors/multihal.cpp:78-90 | the two maps are mutual inverses if and only if the registered pairs are distinct |
| SensorHandles.UnknownIsMinusOne | device/huawei/mozart/sensors/multihal.cpp:92-124 | get_global_handle answers -1 exactly for pairs never registered |
| SensorHandles.UnknownGlobalHandle | device/huawei/mozart/sensors/multihal.cpp:92-112 | a global handle never given out has module and local handle -1 |
| SensorHandles.HandlesRouteBack | device/huawei/mozart/sensors/multihal.cpp:92-124 | mapping a registered pair to its global handle and back gives the module and local handle again |
| SensorHandles.PlaceOfSensor | device/huawei/mozart/sensors/multihal.cpp:692-752 | sensor i of module m comes after all sensors of earlier modules |
| SensorHandles.HandleTable.AssignGlobalHandle | device/huawei/mozart/sensors/multihal.cpp:82-90 | returns the next number and enters the pair in both maps |
| SensorHandles.HandleTable.LazyInitSensorsList | device/huawei/mozart/sensors/multihal.cpp:692-752 | entry i of the list has handle i + 1, so handle - 1 indexes in bounds and names the sensor the handle routes to |
| PollScan.DroppedIff | device/huawei/mozart/sensors/multihal.cpp:330-350 | a normal event is dropped if and only if its sensor is unregistered; a metadata event if and only if its outer sensor field is -1 |
| PollScan.DeliverPerModule | device/huawei/mozart/sensors/multihal.cpp:330-375 | delivery of a mixed log, seen module by module, is that module's own events remapped, filtered and in order |
| PollScan.VisitMakesProgress | device/huawei/mozart/sensors/multihal.cpp:361-378 | every turn of the inner loop takes an event, dropped or not, or adds to the empty queues seen in a row, so the loop ends |
| PollScan.ScanAccounts | device/huawei/mozart/sensors/multihal.cpp:361-378 | over a scan each queue loses exactly the events taken from it, every reservation survives, a queue left unwoken though it was full is untouched, and the buffer holds the delivery of what was taken |
| PollScan.ScanOutcome | device/huawei/mozart/sensors/multihal.cpp:361-379 | at most maxReads events; fewer only if every queue is empty afterwards |
| PollScan.ScanReturnsIffDeliverable | device/huawei/mozart/sensors/multihal.cpp:352-392 | with room for an event, a scan gives back something if and only if some queue holds an event that is not dropped |
| PollScan.VisitIsFair | device/huawei/mozart/sensors/multihal.cpp:361-378 | one turn takes at most one event, and turns before a waiting queue's next one are bounded by its distance |
| PollScan.ScanIsFair | device/huawei/mozart/sensors/multihal.cpp:361-378 | at every moment of a scan up to which queue m still held an event, at most queueCount - 1 foreign events per event of m, plus the distance of the read index, have been taken; the bound goes on to the next scan while m is not empty |
| PollScan.RemapRoutesBack | device/huawei/mozart/sensors/multihal.cpp:330-350 | remapping changes one handle and nothing else; the new one routes back to the module and sensor the event came from, or is -1, exactly if that sensor is unregistered |
| PollLoop.PollContext.PassOn | device/huawei/mozart/sensors/multihal.cpp:368-374 | the event is copied behind those already read, which stay, and counted unless it is dropped |
| PollLoop.PollContext.TakeOldest | device/huawei/mozart/sensors/multihal.cpp:362-376 | peek and dequeue of one queue leave all other queues alone |
| PollLoop.PollContext.VisitQueue | device/huawei/mozart/sensors/multihal.cpp:361-378 | the loop body takes one turn of the scan: queue, buffer, counters and read index |
| PollLoop.PollContext.Scan | device/huawei/mozart/sensors/multihal.cpp:361-378 | the loop ends, and leaves queues, buffer, read index and wake-ups as the scan function says |
| MultiHal.StepKeeps | device/huawei/mozart/sensors/multihal.cpp:133-170 | every critical section of writers and poll, and every store of a sub-HAL in between, keeps queues, reservations, sleepers and histories consistent |
| MultiHal.ReachableInv | device/huawei/mozart/sensors/multihal.cpp:133-170 | so does every run of any number of writers and one caller of poll |
| MultiHal.NoLostWakeup | device/huawei/mozart/sensors/multihal.cpp:352-392 | in every reachable state, poll asleep without a signal means all queues empty, a writer asleep without a signal means its queue is full |
| MultiHal.NeverBothStuck | device/huawei/mozart/sensors/multihal.cpp:352-392 | poll and a writer are never asleep without a signal at the same time |
| MultiHal.Conservation | device/huawei/mozart/sensors/multihal.cpp:133-392 | what a module has had delivered plus what its queue and its writer would still deliver is what its sub-HAL handed over by returning from poll(), remapped, filtered and in order |
| MultiHal.StoredEventsArrive | device/huawei/mozart/sensors/multihal.cpp:150-166 | the events a sub-HAL stored and returned the number of are what it handed over, all of them, and once its writer has committed they are queued or taken |
| MultiHal.WriterGetsFreeSpace | device/huawei/mozart/sensors/multihal.cpp:141-147 | a writer sleeps if and only if its queue is full; otherwise its sub-HAL gets as much free space as there is in one piece |
| MultiHal.PollReturnsOrSleeps | device/huawei/mozart/sensors/multihal.cpp:352-392 | at its call and after each wake-up, poll returns 1 to maxReads events or sleeps having delivered none; with room it returns if and only if a deliverable event is queued, and it leaves an event queued only if it has delivered maxReads |
| MultiHal.NoRoomNeverReturns | device/huawei/mozart/sensors/multihal.cpp:352-392 | a sleeping call with maxReads <= 0 delivers nothing in any continuation |
| MultiHal.RunIsFair | device/huawei/mozart/sensors/multihal.cpp:361-378 | the same at every moment of every run, across calls to poll |
| MultiHal.BoundedOvertaking | device/huawei/mozart/sensors/multihal.cpp:361-378 | an event with d events ahead of it in its queue has been overtaken by at most (d + 1) * (queueCount - 1) events of other queues at any moment of any run before it is taken, in the middle of a scan included |
| DeferredBatch.NarrowingIsExactIffFits | device/huawei/mozart/sensors/multihal.cpp:190-196 | storing a period as an int keeps it if and only if it fits 32 bits, and keeps it modulo 2^32 |
| DeferredBatch.RunFollowsCalls | device/huawei/mozart/sensors/multihal.cpp:498-550 | a sensor is on as the last activate call left it, and its requests are the periods given to batch, in order |
| DeferredBatch.RunInv | device/huawei/mozart/sensors/multihal.cpp:498-550 | over any calls, an enabled sensor has nothing saved, and saved and sent periods answer distinct requests in order |
| DeferredBatch.EnabledRunsAtLastRequest | device/huawei/mozart/sensors/multihal.cpp:498-550 | an enabled sensor's sub-HAL was last sent the last request; the very period if and only if it was not saved or fits 32 bits |
| DeferredBatch.AppliedAtMostOnceOnEnabling | device/huawei/mozart/sensors/multihal.cpp:498-514 | no request is sent twice or after a later one |
| DeferredBatch.SavedAppliesOnlyOnEnabling | device/huawei/mozart/sensors/multihal.cpp:498-514 | a saved request is sent only by an enabling call, at most one per call |
| DeferredBatch.RequestsAreAccountedFor | device/huawei/mozart/sensors/multihal.cpp:529-550 | every request was sent, is saved, or was replaced by a later one while the sensor was off |
| DeferredBatch.LegacyDevice.DeviceActivate | device/huawei/mozart/sensors/multihal.cpp:498-514 | the two arrays, the setDelay call and the returned value of an activate call, compliant sub-HALs passed through |
| DeferredBatch.LegacyDevice.DeviceBatch | device/huawei/mozart/sensors/multihal.cpp:529-550 | the same for batch: saved while off, sent while on |
| LegacyImports.GraphicBufferMapper.LockCached | patches/frameworks/native/legacy-huawei-camera-abi.patch:61-77 | a hit closes the fence and counts the lock or refuses the other kind; a miss changes nothing |
| LegacyImports.GraphicBufferMapper.LockDirect | patches/frameworks/native/legacy-huawei-camera-abi.patch:79-99 | the fence goes to the mapper; the duplicate stays open only for a retry |
| LegacyImports.GraphicBufferMapper.LockRetry | patches/frameworks/native/legacy-huawei-camera-abi.patch:101-151 | a hit closes the duplicate; an import enters an entry, or frees the clone again if locking it fails |
| LegacyImports.GraphicBufferMapper.UnlockCached | patches/frameworks/native/legacy-huawei-camera-abi.patch:255-276 | one lock fewer, or the entry and its clone are gone |
| LegacyImports.GraphicBufferMapper.FreeCached | patches/frameworks/native/legacy-huawei-camera-abi.patch:35-51 | an entry is dropped with its clone |
| LegacyImports.FencesAddUp | patches/frameworks/native/legacy-huawei-camera-abi.patch:79-151 | whichever way a lock call ends, its fence and the duplicate are each closed or handed over exactly once |
| LegacyImports.FirstLookUp | patches/frameworks/native/legacy-huawei-camera-abi.patch:61-77 | a hit closes the fence and answers with the cached mapping or BAD_VALUE; only a miss goes on |
| LegacyImports.RawAttempt | patches/frameworks/native/legacy-huawei-camera-abi.patch:79-102 | the fence is handed to the mapper; a second attempt follows if and only if the answer is BAD_BUFFER and a fence, if there was one, could be duplicated |
| LegacyImports.SecondLookUp | patches/frameworks/native/legacy-huawei-camera-abi.patch:101-156 | an import that succeeds is entered with the kind that was asked for and the mapping that was given, one that fails leaves nothing behind; the duplicate is handed over if and only if the clone is locked with it |
| LegacyImports.EntryAnswersLikeOpening | patches/frameworks/native/legacy-huawei-camera-abi.patch:61-77 | an entry answers to a kind if and only if the lock that opened the nesting asked for that kind, with the mapping it was given |
| LegacyImports.StepKeeps | patches/frameworks/native/legacy-huawei-camera-abi.patch:35-277 | every critical section and the unlocked part between them keep entries, clones, counts and fences consistent |
| LegacyImports.ReachableInv | patches/frameworks/native/legacy-huawei-camera-abi.patch:35-277 | so does every interleaving of lock, lockYCbCr, unlock and free calls |
| LegacyImports.ClonesAndFencesAreLinear | patches/frameworks/native/legacy-huawei-camera-abi.patch:79-151 | live clones are those of the entries, one each; finished calls used up their descriptors once and touched no others |
| LegacyImports.CountIsOpenLocks | patches/frameworks/native/legacy-huawei-camera-abi.patch:255-276 | an entry exists exactly while locks the cache answered are open, and its count is theirs and never zero; it is that of all open locks if and only if none of them was granted by the mapper on the raw handle |
| LegacyImports.OpenLocksAddUp | patches/frameworks/native/legacy-huawei-camera-abi.patch:255-278 | the open locks of a handle, read off all lock, unlock and free calls, are those the cache answered and those the mapper granted on the raw handle |
| LegacyImports.OnlyRawGrantsMiscount | patches/frameworks/native/legacy-huawei-camera-abi.patch:61-151 | from a right count a step makes it wrong if and only if it is such a grant, or the lock of an entry that has 2^32 - 1 already |
| LegacyImports.ForeignUnlockFreesClone | patches/frameworks/native/legacy-huawei-camera-abi.patch:255-276 | a run in which the unlock of a raw-handle lock frees the clone under another thread's open lock |
| LegacyImports.ZeroCountOnlyByOverflow | patches/frameworks/native/legacy-huawei-camera-abi.patch:61-77 | a lock makes the count zero if and only if 2^32 - 1 locks are open in the cache |
| LegacyImports.LockManyTimes | patches/frameworks/native/legacy-huawei-camera-abi.patch:61-77 | every count below 2^32 is reached |
| LegacyImports.OverflowFreesLockedClone | patches/frameworks/native/legacy-huawei-camera-abi.patch:255-276 | so is the zero count under 2^32 open locks, and the next unlock frees the clone under the 2^32 - 1 that are left |
| LegacyImports.NestedLocksShareMapping | patches/frameworks/native/legacy-huawei-camera-abi.patch:61-77 | a lock that the cache answers was asked for with the kind, and given the mapping, of the cached lock that opened the nesting |
| LegacyImports.OtherKindChangesNothing | patches/frameworks/native/legacy-huawei-camera-abi.patch:162-246 | a lock of the other kind fails with BAD_VALUE at either look-up and changes no entry |
| StillCapture.CameraDeviceSession.HasBlobOutput | patches/hardware/interfaces/legacy-huawei-camera-hal.patch:350-358 | true if and only if some output stream is known and has the BLOB format |
| StillCapture.CameraDeviceSession.TryAdmit | patches/hardware/interfaces/legacy-huawei-camera-hal.patch:333-385 | a request is admitted if and only if no still capture is in flight or the wait timed out, and a still one closes the gate for its frame |
| StillCapture.CameraDeviceSession.ProcessCaptureResult | patches/hardware/interfaces/legacy-huawei-camera-hal.patch:576-596 | a result opens the gate exactly if it carries a BLOB buffer of the frame in flight |
| StillCapture.CameraDeviceSession.NotifyError | patches/hardware/interfaces/legacy-huawei-camera-hal.patch:605-614 | an error opens the gate exactly if it is about the frame in flight |
| StillCapture.CameraDeviceSession.OpenGate | patches/hardware/interfaces/legacy-huawei-camera-hal.patch:511-527 | flush, close and failing still requests open the gate |
| StillCapture.CameraDeviceSession.StreamsConfigured | patches/hardware/interfaces/legacy-huawei-camera-hal.patch:323-325 | a new configuration forgets the registered streams |
| StillCapture.CameraDeviceSession.RegisterLegacyBuffers | patches/hardware/interfaces/legacy-huawei-camera-hal.patch:256-314 | succeeds without effect on newer devices, fails without the operation, and otherwise succeeds if and only if every stream was registered before or can be; a failure keeps the streams registered before it, and no stream is registered twice per configuration |
| StillCapture.StepKeeps | patches/hardware/interfaces/legacy-huawei-camera-hal.patch:333-385 | every critical section of requester, results, errors, flush, close and timeout keeps the gate, the waiter and the log consistent |
| StillCapture.ReachableInv | patches/hardware/interfaces/legacy-huawei-camera-hal.patch:333-385 | so does every run |
| StillCapture.NoLaterRequestBeforeRelease | patches/hardware/interfaces/legacy-huawei-camera-hal.patch:366-384 | after a still frame is admitted no later request reaches process_capture_request before its BLOB result, error or failure, a flush, a close or a timeout |
| StillCapture.SleepsOnlyBehindAStill | patches/hardware/interfaces/legacy-huawei-camera-hal.patch:366-377 | a request asleep without a signal is behind a closed gate; behind an open one it is admitted as soon as it runs |
| StillCapture.OthersDoNotOpen | patches/hardware/interfaces/legacy-huawei-camera-hal.patch:366-614 | over any run, as long as a still capture has not been released by one of the six ways, the gate stays closed for it and no request is admitted; the next result or error opens it exactly if it carries that frame's BLOB or is about that frame |
| StillCapture.GateOpensIffReleased | patches/hardware/interfaces/legacy-huawei-camera-hal.patch:366-614 | a step ends a closed gate if and only if it is one of the six releases of that capture, and then wakes a waiting request; the timeout admits it |
| StillCapture.ReleasesAreListed | patches/hardware/interfaces/legacy-huawei-camera-hal.patch:366-614 | the releases on the list are exactly those steps |
| StillCapture.OnlyStillsCloseTheGate | patches/hardware/interfaces/legacy-huawei-camera-hal.patch:366-384 | an open gate is closed only by admitting a still capture, for that capture |
| StillCapture.RequestGoesThrough | patches/hardware/interfaces/legacy-huawei-camera-hal.patch:366-505 | a request waits if and only if the gate is closed, is submitted after it was admitted, and is done when that returns |
| StillCapture.FailingReturnLeavesGateOpen | patches/hardware/interfaces/legacy-huawei-camera-hal.patch:394-505 | every failing return after admission leaves the gate open, whatever the request was |
| StillCapture.StillMeansStill | patches/hardware/interfaces/legacy-huawei-camera-hal.patch:335-364 | a request counts as still if and only if it has a BLOB output and its intent, stated or inherited from the last admitted request that stated one, is STILL_CAPTURE |
| StreamConfigurations.AppendRow | patches/hardware/interfaces/legacy-huawei-camera-hal.patch:54-71 | a row appended to a table is the row of the next pair |
| StreamConfigurations.Builder.AppendSizes | patches/hardware/interfaces/legacy-huawei-camera-hal.patch:54-71 | one row per whole pair of sizes, in order, in all three tables |
| StreamConfigurations.DeriveStreamConfigurations | patches/hardware/interfaces/legacy-huawei-camera-hal.patch:33-92 | derives nothing if the new tag is there or an old one missing; otherwise the three tables of all pairs of all formats |
| StreamConfigurations.TablesAgree | patches/hardware/interfaces/legacy-huawei-camera-hal.patch:33-92 | equal length of four numbers for each whole pair, the same format, width and height row by row, a stall exactly in BLOB rows |
| StreamConfigurations.PairsInInputOrder | patches/hardware/interfaces/legacy-huawei-camera-hal.patch:73-85 | the rows of format i come between those of the formats before and after it |
| StreamConfigurations.RowOfPair | patches/hardware/interfaces/legacy-huawei-camera-hal.patch:54-85 | the row of the j-th size of the i-th format, number by number in all three tables, with the size list of the format's family |
| Floats.FloatIsNearest | patches/hardware/interfaces/hwc2onfbadapter-hisi-dss-overlay-fallback.patch:348-351 | rounding to a float gives a multiple of the spacing no further than half of it away, with 24 significant bits |
| Floats.FloatReachesBound | patches/hardware/interfaces/hwc2onfbadapter-hisi-dss-overlay-fallback.patch:315-351 | a float is at least a bound if and only if the number it is rounded from is within half a spacing of the first multiple past the bound |
| DssLayers.AxisOvershoot | patches/hardware/interfaces/hwc2onfbadapter-hisi-dss-overlay-fallback.patch:301-351 | on one axis of any size, rounded position plus rounded extent exceeds the size if and only if the extent comes within half a float spacing of one that rounds up past what the rounded start leaves |
| DssLayers.OvershootsIffRoomLost | patches/hardware/interfaces/hwc2onfbadapter-hisi-dss-overlay-fallback.patch:301-351 | up to 2^23 pixels, that is: the crop starts in the second half of a pixel and its room to the half pixel and the far edge is no more than half the float spacing of the extent; and it is one pixel then |
| DssLayers.ExactExtentOvershoots | patches/hardware/interfaces/hwc2onfbadapter-hisi-dss-overlay-fallback.patch:301-351 | where the extent is a float itself, that is exactly a crop to the far edge that starts at a half pixel |
| DssLayers.FirstHalfFits | patches/hardware/interfaces/hwc2onfbadapter-hisi-dss-overlay-fallback.patch:301-351 | up to 2^24 pixels, a crop that starts in the first half of a pixel, or on a whole one, stays inside |
| DssLayers.WholePixelsMayOvershoot | patches/hardware/interfaces/hwc2onfbadapter-hisi-dss-overlay-fallback.patch:315-318 | beyond, the comparison with the rounded size lets a whole crop pass that overshoots |
| DssLayers.SourceInsideBufferIff | patches/hardware/interfaces/hwc2onfbadapter-hisi-dss-overlay-fallback.patch:305-374 | an accepted layer reads inside its buffer if and only if neither axis overshoots |
| DssLayers.AcceptedCropsOvershoot | patches/hardware/interfaces/hwc2onfbadapter-hisi-dss-overlay-fallback.patch:305-374 | accepted crops that overshoot, one at the half pixel and others past it |
| DssLayers.AcceptedIff | patches/hardware/interfaces/hwc2onfbadapter-hisi-dss-overlay-fallback.patch:309-325 | exactly these layers are accepted: a vendor buffer with a known format and a size, a non-empty crop within it, a non-empty frame |
| DssLayers.WholeCropIsItself | patches/hardware/interfaces/hwc2onfbadapter-hisi-dss-overlay-fallback.patch:348-351 | a crop in whole pixels is the source rectangle |
| DssLayers.SourceIsNearCrop | patches/hardware/interfaces/hwc2onfbadapter-hisi-dss-overlay-fallback.patch:348-351 | any other is off by at most half a pixel in position, and in extent by that and half a float spacing |
| DssLayers.ConversionKeepsLayout | patches/hardware/interfaces/hwc2onfbadapter-hisi-dss-overlay-fallback.patch:191-237 | a format is converted if and only if it is known, to the DSS format of the same component order and subsampling, and counts as YUV if and only if it has chroma |
| DssLayers.HandleFields | patches/hardware/interfaces/hwc2onfbadapter-hisi-dss-overlay-fallback.patch:182-189 | which words of a handle are its magic, format, width and height |
| DssLayers.FrameAreaIsArea | patches/hardware/interfaces/hwc2onfbadapter-hisi-dss-overlay-fallback.patch:294-299 | a frame on the display has the area of its width times its height |
| DssLayers.AlphaIsScaled | patches/hardware/interfaces/hwc2onfbadapter-hisi-dss-overlay-fallback.patch:360 | opacity becomes its share of 255, clamped and cut to a whole number |
| DssLayers.KnownTransformsPass | patches/hardware/interfaces/hwc2onfbadapter-hisi-dss-overlay-fallback.patch:244-270 | the five known transforms and two blend modes pass, all others are dropped |
| DssLayers.AcceptedLayer | patches/hardware/interfaces/hwc2onfbadapter-hisi-dss-overlay-fallback.patch:305-374 | an accepted layer has the rounded crop as its source, its display frame as its destination, the format and size of its handle, and the mapped attributes; colour conversion and scaling are asked for exactly if needed |
| Overlay.HWC2OnFbAdapter.AddLayer | patches/hardware/interfaces/hwc2onfbadapter-hisi-dss-overlay-fallback.patch:625-633 | a new layer has an id not used before |
| Overlay.HWC2OnFbAdapter.RemoveLayer | patches/hardware/interfaces/hwc2onfbadapter-hisi-dss-overlay-fallback.patch:635-650 | removing a layer removes it everywhere, also as the overlay |
| Overlay.HWC2OnFbAdapter.SetLayer | patches/hardware/interfaces/hwc2onfbadapter-hisi-dss-overlay-fallback.patch:658-744 | the setters change one attribute of one known layer |
| Overlay.HWC2OnFbAdapter.SetLayerHook | patches/hardware/interfaces/hwc2onfbadapter-hisi-dss-overlay-fallback.patch:458-564 | a change of any attribute but the buffer ends the validity of the last validation |
| Overlay.AttributesAreLastSet | patches/hardware/interfaces/hwc2onfbadapter-hisi-dss-overlay-fallback.patch:656-744 | after any setLayer calls every attribute is the one that was set last |
| Overlay.LayersComeAndGo | patches/hardware/interfaces/hwc2onfbadapter-hisi-dss-overlay-fallback.patch:625-650 | a new layer has the defaults and a fresh id, a removed one takes its decisions with it, and the others stay as they are |
| Overlay.ChangeReachesItsLayer | patches/hardware/interfaces/hwc2onfbadapter-hisi-dss-overlay-fallback.patch:458-564 | a change reaches its layer alone and ends the validation unless it is that of the buffer |
| Overlay.HWC2OnFbAdapter.ChooseOverlay | patches/hardware/interfaces/hwc2onfbadapter-hisi-dss-overlay-fallback.patch:760-787 | for every order of the walk, a largest eligible layer, none exactly if none is eligible |
| Overlay.HWC2OnFbAdapter.AssignTypes | patches/hardware/interfaces/hwc2onfbadapter-hisi-dss-overlay-fallback.patch:789-804 | types and reported changes of all layers, for every order of the walk |
| Overlay.HWC2OnFbAdapter.SelectOverlay | patches/hardware/interfaces/hwc2onfbadapter-hisi-dss-overlay-fallback.patch:806-813 | the overlay, and its client target exactly if some layer is left to the client |
| Overlay.HWC2OnFbAdapter.ValidateLayers | patches/hardware/interfaces/hwc2onfbadapter-hisi-dss-overlay-fallback.patch:746-817 | the state after validation, and the two numbers returned |
| Overlay.HWC2OnFbAdapter.ValidateDisplay | patches/hardware/interfaces/hwc2onfbadapter-hisi-dss-overlay-fallback.patch:379-392 | there are changes to accept exactly if some type differs or the client target is to be cleared |
| Overlay.HWC2OnFbAdapter.AcceptChanges | patches/hardware/interfaces/hwc2onfbadapter-hisi-dss-overlay-fallback.patch:827-832 | every requested type becomes the validated one and no change is left |
| Overlay.HWC2OnFbAdapter.AcceptDisplayChanges | patches/hardware/interfaces/hwc2onfbadapter-hisi-dss-overlay-fallback.patch:446-454 | accepts what was validated, and is refused if nothing was |
| Overlay.HWC2OnFbAdapter.PostOverlay | patches/hardware/interfaces/hwc2onfbadapter-hisi-dss-overlay-fallback.patch:839-932 | what is played, and that each failure latches the error |
| Overlay.HWC2OnFbAdapter.PostBuffer | patches/hardware/interfaces/hwc2onfbadapter-hisi-dss-overlay-fallback.patch:934-942 | the client target is posted exactly if no overlay was played and there is a target |
| Overlay.EligibleIff | patches/hardware/interfaces/hwc2onfbadapter-hisi-dss-overlay-fallback.patch:767-779 | eligible is exactly a layer that asks for the hardware, unrotated, opaque and on the display, with a YUV vendor buffer that holds its crop |
| Overlay.ValidationOutcome | patches/hardware/interfaces/hwc2onfbadapter-hisi-dss-overlay-fallback.patch:746-817 | one device layer of maximal area exactly if the property is set, no error latched and a layer eligible; changes are exactly the layers whose type differs; the client target is used exactly if other layers exist; the latch is kept exactly while the property is set, and nothing else changes |
| Overlay.ValidationIsAccepted | patches/hardware/interfaces/hwc2onfbadapter-hisi-dss-overlay-fallback.patch:379-454 | a validation holds as it is exactly if there is nothing to accept; accepting changes the requested types and nothing else |
| Overlay.AcceptedValidationIsStable | patches/hardware/interfaces/hwc2onfbadapter-hisi-dss-overlay-fallback.patch:746-832 | validate, accept, validate gives the same overlay and no changes, for every order of both walks |
| Overlay.ReachableInv | patches/hardware/interfaces/hwc2onfbadapter-hisi-dss-overlay-fallback.patch:625-942 | every run of layer changes, validations, accepts and presents keeps layers, states, overlay and error latch consistent |
| Overlay.FailureDisablesOverlay | patches/hardware/interfaces/hwc2onfbadapter-hisi-dss-overlay-fallback.patch:839-932 | after a failed overlay none is selected or played before a validation has seen the property unset |
| Overlay.OverlayLayerIsLive | patches/hardware/interfaces/hwc2onfbadapter-hisi-dss-overlay-fallback.patch:839-932 | the overlay layer is always known, so presenting it plays it or latches the error; the missing-layer branch is dead |
| Overlay.PlayedLayers | patches/hardware/interfaces/hwc2onfbadapter-hisi-dss-overlay-fallback.patch:858-932 | the video's crop on channel 0 and, exactly if the client target is used, the target blended above it on channel 3 over the whole display, both opaque; while a validation holds the video is at its display frame, unrotated |
| Overlay.StepsAreListed | patches/hardware/interfaces/hwc2onfbadapter-hisi-dss-overlay-fallback.patch:746-942 | every step of a run is the call it stands for, and the list tells what was decided and played |
| Overlay.KeptBufferPlaysYuv | patches/hardware/interfaces/hwc2onfbadapter-hisi-dss-overlay-fallback.patch:746-942 | over any run from a validation to the next in which the chosen layer keeps its buffer, what is played is that layer, and YUV |
| Overlay.ValidatedStateIsCurrent | patches/hardware/interfaces/hwc2onfbadapter-hisi-dss-overlay-fallback.patch:386-564 | in every reachable validated state each requested type is the validated one, and the overlay layer has the frame, crop, transform and alpha it was found eligible with, so that only its buffer may have changed |
| Overlay.KeptBufferFailsOnlyOutside | patches/hardware/interfaces/hwc2onfbadapter-hisi-dss-overlay-fallback.patch:839-932 | while a validation holds and the chosen layer keeps its buffer, the overlay fails if and only if the client target is missing or unusable, or the frame buffer device refuses |
| Overlay.RgbCanBePlayed | README.md:56-65 | a run in which an RGBA buffer is played, against the promise that only YUV is |
| PowerBoost.CompareIsByTotal | device/huawei/mozart/power/power.c:83-92 | comparing normalised times field by field is comparing their nanoseconds |
| PowerBoost.CpuBoostLength | device/huawei/mozart/power/power.c:214-221 | a CPU boost in microseconds lasts its whole milliseconds, the default if that is none, the maximum if more |
| PowerBoost.HintLengths | device/huawei/mozart/power/power.c:185-221 | which hints ask for a boost and how long it lasts |
| PowerBoost.DeadlineIsExact | device/huawei/mozart/power/power.c:118-132 | one carry gives a normalised deadline exactly the clamped duration after the clock |
| PowerBoost.PowerHal.RequestBoost | device/huawei/mozart/power/power.c:118-147 | vetoed in low-power mode; otherwise a boost is active until at least the requested time |
| PowerBoost.PowerHal.CancelBoost | device/huawei/mozart/power/power.c:149-159 | ends the boost and tells whether there was one |
| PowerBoost.PowerHal.SetLowPower | device/huawei/mozart/power/power.c:204-209 | sets the veto and leaves a running boost to the cancellation that follows |
| PowerBoost.PowerHal.WorkerTimedOut | device/huawei/mozart/power/power.c:103-114 | ends the boost exactly if it is active and its deadline has come |
| PowerBoost.StepKeeps | device/huawei/mozart/power/power.c:94-159 | every critical section of worker, requesters and cancellers, and every clock tick, keeps deadlines near and the worker's wait right |
| PowerBoost.ReachableInv | device/huawei/mozart/power/power.c:94-159 | so does every run |
| PowerBoost.WorkerWaitsForTheRightThing | device/huawei/mozart/power/power.c:94-116 | an unsignalled untimed wait means no boost, an unsignalled timed one is armed at the current deadline, and past the deadline the worker can wake up |
| PowerBoost.BoostEndsInTime | device/huawei/mozart/power/power.c:104-159 | an active deadline never moves back, and only a cancellation, or the worker at or after the deadline, ends a boost |
| PowerBoost.TimeoutEndsIffDue | device/huawei/mozart/power/power.c:103-114 | a worker that times out ends the boost if and only if its deadline has come, and otherwise waits for the deadline there is |
| PowerBoost.WakingWaitsAgain | device/huawei/mozart/power/power.c:98-104 | any other wake-up leads back to the wait the variables ask for |
| PowerBoost.RequestExtends | device/huawei/mozart/power/power.c:133-147 | a request makes the boost last to the later of its own deadline and the one there was and wakes the worker; a vetoed one changes nothing |
| PowerBoost.RequestReadsClock | device/huawei/mozart/power/power.c:118-132 | its deadline is its length after the clock it read |
| PowerBoost.CancelEnds | device/huawei/mozart/power/power.c:149-159 | a cancellation ends the boost, wakes the worker, and has the hardware reset if and only if there was one |
| PowerBoost.LowPowerHint | device/huawei/mozart/power/power.c:204-213 | the low-power hint sets or lifts the veto, and setting it is followed by a cancellation |
| PowerBoost.DeadlineIsNear | device/huawei/mozart/power/power.c:118-143 | an active deadline is at most three seconds after the current time |
| PowerBoost.LowPowerVeto | device/huawei/mozart/power/power.c:204-213 | in low-power mode no boost is active once the hint that set it has cancelled |
| PowerBoost.SettlesRightIffAgreed | device/huawei/mozart/power/power.c:104-159 | the due hardware writes leave the hardware boosted just if a boost is active, in whatever order they are made, if and only if they all say what the variables say |
| PowerBoost.StepKeepsHardwareIff | device/huawei/mozart/power/power.c:104-159 | a critical section keeps that so if and only if it does not start or end a boost while a write of the other kind is due |
| PowerBoost.UnopposedHardwareIsRight | device/huawei/mozart/power/power.c:104-159 | so over every run without such a step, overlapping or not, the hardware is boosted just if a boost is active whenever no write is due |
| PowerBoost.SerialHardwareIsRight | device/huawei/mozart/power/power.c:104-159 | in particular if calls are serialised |
| PowerBoost.RacingCallsLeaveHardwareBoosted | device/huawei/mozart/power/power.c:118-159 | a run with racing calls that ends with the hardware boosted, no boost active, the worker asleep and nothing left to cancel |
| CameraMetadata.ResizeMakesRoom | device/huawei/mozart/libshims/gui/CameraMetadata.cpp:34-67 | succeeds if and only if no memory is needed or it is there; then both capacities cover the request and the contents are kept, otherwise nothing changes |
| CameraMetadata.ResizeDoubles | device/huawei/mozart/libshims/gui/CameraMetadata.cpp:34-67 | no capacity shrinks, one that grows more than doubles, and a buffer is replaced only to grow |
| CameraMetadata.SetEntry | device/huawei/mozart/libshims/gui/CameraMetadata.cpp:95-104 | setting a tag in a block with room succeeds and changes that tag alone |
| CameraMetadata.UpdateSetsOneTag | device/huawei/mozart/libshims/gui/CameraMetadata.cpp:69-105 | an update succeeds if and only if unlocked, tag known, data foreign and memory available; then it sets one tag, otherwise nothing changes |
| CameraMetadata.UpdateErrors | device/huawei/mozart/libshims/gui/CameraMetadata.cpp:69-93 | which error an update ends with, in the order of the checks |
| CameraMetadata.LookupFindsFirst | device/huawei/mozart/libshims/gui/CameraMetadata.cpp:95-104 | a look-up gives the first entry with the tag, and nothing if and only if none has it |
| CameraMetadata.UpdateTakesEffect | device/huawei/mozart/libshims/gui/CameraMetadata.cpp:69-105 | an update of an unlocked object with memory at hand sets its tag |
| CameraMetadata.ReallocationsAreLogarithmic | device/huawei/mozart/libshims/gui/CameraMetadata.cpp:34-105 | over any updates, two to the number of reallocations is at most the growth of the capacities, and the entry table stays within twice its contents |
| CameraMetadata.BuffersHaveOneOwner | device/huawei/mozart/libshims/gui/CameraMetadata.cpp:109-153 | over any calls every live buffer has exactly one owner: none is leaked, freed twice or used after it |
| CameraMetadata.LockedObjectIsFrozen | device/huawei/mozart/libshims/gui/CameraMetadata.cpp:158-177 | a locked object keeps its buffer and contents until destroyed or unlocked with that buffer |
| CameraMetadata.CallsTakeEffect | device/huawei/mozart/libshims/gui/CameraMetadata.cpp:116-177 | what each call does to an unlocked object, and that locking and the right unlock take effect |
| CameraMetadata.DestroyFreesEverything | device/huawei/mozart/libshims/gui/CameraMetadata.cpp:125-128 | the destructor leaves no buffer of the object's, locked or not |
| CameraMetadata.AcquireDanglesIffOwn | device/huawei/mozart/libshims/gui/CameraMetadata.cpp:146-153 | acquiring a live buffer leaves the object with a freed one if and only if it is unlocked and the buffer is its own |
| CameraMetadata.LegacyCameraMetadata.ResizeIfNeeded | device/huawei/mozart/libshims/gui/CameraMetadata.cpp:34-67 | computes the resized object; the copy into the new buffer cannot fail |
| CameraMetadata.LegacyCameraMetadata.UpdateImpl | device/huawei/mozart/libshims/gui/CameraMetadata.cpp:69-105 | computes the updated object and the status |
| CameraMetadata.LegacyCameraMetadata.Clear | device/huawei/mozart/libshims/gui/CameraMetadata.cpp:116-121 | frees the buffer unless locked |
| CameraMetadata.LegacyCameraMetadata.Release | device/huawei/mozart/libshims/gui/CameraMetadata.cpp:133-141 | gives the buffer away unless locked |
| CameraMetadata.LegacyCameraMetadata.Acquire | device/huawei/mozart/libshims/gui/CameraMetadata.cpp:146-153 | frees the old buffer and takes the new one unless locked; what it then holds is live unless it was its own |
| CameraMetadata.LegacyCameraMetadata.GetAndLock | device/huawei/mozart/libshims/gui/CameraMetadata.cpp:158-162 | locks and shows the buffer |
| CameraMetadata.LegacyCameraMetadata.UnlockBuffer | device/huawei/mozart/libshims/gui/CameraMetadata.cpp:167-177 | unlocks exactly if locked and shown the right buffer |
| CameraMetadata.LegacyCameraMetadata.Find | device/huawei/mozart/libshims/gui/CameraMetadata.cpp:182-189 | the value of the first entry with the tag; none while locked |
| MacAddress.ParseMac | device/huawei/mozart/macaddr/mac_addr_normalization.cpp:80-103 | accepts exactly the well-formed texts of usable addresses, and returns their bytes |
| MacAddress.ParsePrinted | device/huawei/mozart/macaddr/mac_addr_normalization.cpp:80-103 | every address is parsed back from its printed form |
| MacAddress.PrintParsed | device/huawei/mozart/macaddr/mac_addr_normalization.cpp:80-103 | printing a parsed address gives the text in upper case |
| MacAddress.WellFormedIffPrinted | device/huawei/mozart/macaddr/mac_addr_normalization.cpp:80-92 | a text is well formed if and only if it is a printed address in either case |
| MacAddress.HexValueIsPlace | device/huawei/mozart/macaddr/mac_addr_normalization.cpp:69-78 | the digits of either case, and nothing else, have their place in 0123456789ABCDEF as value |
| MacAddress.UsableIff | device/huawei/mozart/macaddr/mac_addr_normalization.cpp:94-103 | an address is refused if and only if it is all zeros, all ones or has the group bit set |
| MacAddress.FirstByteIsMasking | device/huawei/mozart/macaddr/mac_addr_normalization.cpp:170-171 | the arithmetic used for the first byte is the source's masking |
| MacAddress.GeneratedIsAccepted | device/huawei/mozart/macaddr/mac_addr_normalization.cpp:156-172 | a generated address is locally administered, unicast and otherwise random, and its printed form is accepted and parsed back |
| MacAddress.ReadFully | device/huawei/mozart/macaddr/mac_addr_normalization.cpp:34-51 | succeeds if and only if enough bytes arrive, and returns the first of them in order, however they are split |
| MacAddress.ArrivingIsUntilEnd | device/huawei/mozart/macaddr/mac_addr_normalization.cpp:34-51 | what arrives is all that is read before the first failure or end of file, interruptions not counting |
| MacAddress.Disk.WriteFully | device/huawei/mozart/macaddr/mac_addr_normalization.cpp:53-67 | succeeds if and only if the writes take the whole text, and the file then holds it, however they are split |
| MacAddress.AccumulatedIsUntilFailure | device/huawei/mozart/macaddr/mac_addr_normalization.cpp:53-67 | what is written is all that the writes before the first failure take, interruptions not counting |
| MacAddress.Disk.WriteTemporary | device/huawei/mozart/macaddr/mac_addr_normalization.cpp:193-218 | the temporary file holds the whole text, exactly if every call up to close succeeds, and no other file is touched at any moment |
| MacAddress.Disk.StoreMac | device/huawei/mozart/macaddr/mac_addr_normalization.cpp:174-228 | at every moment, a crash included, the target holds its old content or one whole new address; success exactly if every call succeeds, and a failure leaves the target alone |
| MacAddress.StoredAddressIsFound | device/huawei/mozart/macaddr/mac_addr_normalization.cpp:105-129 | a stored address is found valid again at the next start, trailing white space included |
| MacAddress.FoundIsUsable | device/huawei/mozart/macaddr/mac_addr_normalization.cpp:105-129 | a file found valid starts with a usable address followed by nothing but white space |

## Left out

Assumptions of the model:

- There is one caller of `poll()`, every sub-HAL has opened, and a sub-HAL's `poll()` returns at
  most as many events as it was given room for.
- `activate` and `batch` are called with registered handles, since the source indexes its arrays by
  handle - 1 without a check, and `get_sensors_list` returns the same list both times it is called.
- Capture requests are submitted one after the other.
- A call of `processOneCaptureRequest` reads its settings and reaches the gate in one step;
  `pthread_cond_timedwait` takes the deadline it is given when it is called; the five-second limit
  may end a wait at any time, because its length is not measured.
- A file system that shows operations in the order they are made; a crash stops between two of them.
- Frame buffer dimensions are below 2^31 and capacities do not overflow `size_t`.
- A 64-bit layer id never wraps; `firstWritable + requestedLength` does not overflow, as the one
  caller asks for 36 records.

Not modelled:

- Start-up of the multi-HAL: the ten-second sleep, the configuration file, `dlopen`, and the
  hand-over of `queue_mutex`; the model starts after it.
- `fix_sensor_flags`, `inject_sensor_data`, `flush` and `setDelay` forwarding: pass-throughs. Also
  the branch of `batch()` for old sub-HALs, which `device__batch` never reaches.
- The endless loops of `writerTask` and `boost_worker` as methods: their critical sections are
  methods of the classes, and the loops are the cycles of the transition systems.
- The kernel mapper, the camera_metadata library, the camera HAL and the frame buffer device: each
  is its possible answers, or for the library the contract of the calls used.
- Floats that are infinite or not a number, and rounding modes other than to nearest.
- What lies outside the overlay patch: `present`'s own test of the mode, the rest of `postBuffer`, and
  whether creating or destroying a layer ends a validation (both are covered). That a validation
  without changes sets the validated mode, and that accepting is refused in the modified one, is taken
  from the names of the modes and the error. A layer's blend mode and z order are stored but the
  overlay path does not read them.
- A crop edge that rounds to 2^32, which the conversion to 32 bits leaves undefined.
- `expandArrayRect` and the fixed tags of the derived characteristics; torch, autofocus and
  thumbnail overrides of the camera patch: single assignments.
- The single sysfs writes of `set_interaction_boost`: the six of one call are one step, so opposing
  calls whose writes mix half-way are not modelled.
- The sysfs values written for a boost, `fchmod`, the vendor helper process and `main` of the MAC
  helper; opening `/dev/urandom` failing is a read that fails at once.
- `ReadFully` and `WriteFully` are given a finite list of results, and running out of it counts as
  a failure; the source would go on asking.
- `swap`, `append` and the other members of the CameraMetadata class that the shim does not define.
